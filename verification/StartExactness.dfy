/**
 The start error a proposal reports (scripts/pi_lab_clock.py:178-179) ignores the
 drift after the reference instant. Its upper half is therefore a true bound for
 every cohort and every pair of clocks exactly when the policy's drift rate is zero.
 */
module StartExactness {
  import opened Aggregates
  import opened ClockExchange
  import opened StartPlan
  import opened StartSoundness

  /** An accepted proposal together with clocks that meet all its assumptions and fire at the proposed start. */
  ghost predicate FairCase(rows: seq<Observation>, runId: Identifier, now: Stamp, p: Policy, role: nat, scene: Scene) {
    && Accepted(rows, runId, now, p) && role < |rows|
    && Plausible(scene, rows[role].exchanges, p.driftPpm)
    && Fires(scene, Proposal(rows, runId, now, p).roles[role])
  }

  /** The reported bound without its lateness. */
  ghost function ReportedUpper(rows: seq<Observation>, runId: Identifier, now: Stamp, p: Policy, role: nat): real
    requires Accepted(rows, runId, now, p) && role < |rows|
  {
    (Proposal(rows, runId, now, p).roles[role].startError.hi - p.maxLateness) as real
  }

  /** Under a drift rate, no fair case fires later than the reported bound without its lateness. */
  ghost predicate ReportedUpperBoundHolds(ppm: int) {
    forall rows, runId, now, p: Policy, role: nat, scene ::
      p.driftPpm == ppm && FairCase(rows, runId, now, p, role, scene) ==>
        StartError(scene, now.unix + p.lead) <= ReportedUpper(rows, runId, now, p, role)
  }

  lemma ReportedUpperBoundHoldsIffNoDrift(ppm: int)
    requires 0 <= ppm <= MILLION
    ensures ReportedUpperBoundHolds(ppm) <==> ppm == 0
  {
    if ppm == 0 {
      forall rows, runId, now, p: Policy, role: nat, scene
        | p.driftPpm == ppm && FairCase(rows, runId, now, p, role, scene)
        ensures StartError(scene, now.unix + p.lead) <= ReportedUpper(rows, runId, now, p, role)
      {
        hide Accepted, Plausible, Fires, Proposal;
        StartErrorBounds(rows, runId, now, p, role, scene);
      }
    } else {
      LateFiring(ppm);
    }
  }

  // ---- A cohort whose exchanges all read zero, and a node running slow ----

  const ZERO := Stamp(0, 0, 0)
  const RUN := WellFormed(0)

  function ZeroExchange(nonce: int): Exchange { Derive(ZERO, ZERO, ZERO, RUN, nonce) }

  function ZeroRow(role: int): Observation {
    Observation(role, [ZeroExchange(3 * role), ZeroExchange(3 * role + 1), ZeroExchange(3 * role + 2)])
  }

  function ZeroRows(): seq<Observation> { [ZeroRow(0), ZeroRow(1), ZeroRow(2)] }

  function ZeroPolicy(ppm: int): Policy { Policy(3_000_000_000, 1, 0, 0, 0, ppm, 3_000_000_000, 0, 6_000_000_000) }

  lemma AllEqual(s: seq<int>, v: int)
    requires |s| > 0 && forall i :: 0 <= i < |s| ==> s[i] == v
    ensures MinOf(s) == v && MaxOf(s) == v
  {
  }

  lemma UniformPlan(role: int, samples: seq<Sample>, now: Stamp, p: Policy, margin: int)
    requires margin >= 0 && |samples| > 0
    requires forall i :: 0 <= i < |samples| ==> samples[i].bounds == Interval(-margin, margin)
    ensures var plan := PlanOf(role, samples, now, p);
            && plan.start == now.unix + p.lead && plan.uncertainty == margin
            && plan.startError == Interval(-margin, margin + p.maxLateness)
    ensures Consistent(samples)
  {
  }

  lemma ZeroSamples(role: int, ppm: int)
    requires 0 <= ppm <= MILLION
    ensures var samples := Samples(ZeroRow(role).exchanges, ZERO, ZeroPolicy(ppm));
            |samples| == 3 && forall i :: 0 <= i < 3 ==> samples[i].bounds == Interval(-3000 * ppm, 3000 * ppm)
  {
  }

  lemma ZeroPlan(role: int, ppm: int)
    requires 0 <= ppm <= MILLION
    ensures var samples := Samples(ZeroRow(role).exchanges, ZERO, ZeroPolicy(ppm));
            var plan := PlanOf(role, samples, ZERO, ZeroPolicy(ppm));
            && plan.start == 3_000_000_000 && plan.uncertainty == 3000 * ppm
            && plan.startError == Interval(-3000 * ppm, 3000 * ppm) && Consistent(samples)
  {
    hide Samples, PlanOf, Consistent, ZeroRow;
    ZeroSamples(role, ppm);
    UniformPlan(role, Samples(ZeroRow(role).exchanges, ZERO, ZeroPolicy(ppm)), ZERO, ZeroPolicy(ppm), 3000 * ppm);
  }

  lemma ZeroExchangeUsable(nonce: int, ppm: int)
    requires 0 <= ppm <= MILLION && 0 <= nonce < 9
    ensures Usable(ZeroExchange(nonce), RUN, ZERO, ZeroPolicy(ppm))
  {
  }

  lemma ZeroNonces(role: nat)
    ensures NoncesOf(ZeroRow(role).exchanges) == [3 * role, 3 * role + 1, 3 * role + 2]
    ensures ZeroRow(role).exchanges[..3] == ZeroRow(role).exchanges
  {
  }

  lemma ZeroSeen(role: nat, n: int)
    requires role < 3 && n in Seen(ZeroRows(), role)
    ensures n < 3 * role
  {
  }

  lemma ZeroFresh(role: nat)
    requires role < 3
    ensures Fresh(NoncesOf(ZeroRow(role).exchanges[..3]), Seen(ZeroRows(), role))
  {
    hide Seen, ZeroRow, NoncesOf;
    ZeroNonces(role);
    forall n | n in Seen(ZeroRows(), role) ensures n < 3 * role { ZeroSeen(role, n); }
  }

  lemma ZeroRowCollected(role: nat, ppm: int)
    requires 0 <= ppm <= MILLION && role < 3
    ensures Collected(ZeroRow(role).exchanges, 3, RUN, ZERO, ZeroPolicy(ppm), Seen(ZeroRows(), role))
  {
    hide Usable, Fresh, Seen, NoncesOf;
    ZeroExchangeUsable(3 * role, ppm);
    ZeroExchangeUsable(3 * role + 1, ppm);
    ZeroExchangeUsable(3 * role + 2, ppm);
    ZeroFresh(role);
  }

  lemma ZeroRowAccepted(role: nat, ppm: int)
    requires 0 <= ppm <= MILLION && role < 3
    ensures RoleAccepted(ZeroRow(role), role, RUN, ZERO, ZeroPolicy(ppm), Seen(ZeroRows(), role))
  {
    hide Collected, Samples, PlanOf, Consistent, Seen;
    ZeroPlan(role, ppm);
    ZeroRowCollected(role, ppm);
  }

  lemma ZeroRowsShape()
    ensures |ZeroRows()| == 3
    ensures forall i :: 0 <= i < 3 ==> ZeroRows()[i] == ZeroRow(i) && |ZeroRows()[i].exchanges| == 3
  {
  }

  lemma ZeroRolePlans(ppm: int) returns (plans: seq<RolePlan>)
    requires 0 <= ppm <= MILLION
    ensures forall i :: 0 <= i < |ZeroRows()| ==> |ZeroRows()[i].exchanges| > 0
    ensures plans == RolePlans(ZeroRows(), ZERO, ZeroPolicy(ppm)) && |plans| == 3
    ensures forall i :: 0 <= i < 3 ==>
      plans[i].start == 3_000_000_000 && plans[i].startError == Interval(-3000 * ppm, 3000 * ppm)
  {
    ZeroRowsShape();
    hide Samples, PlanOf, ZeroRow, ZeroRows;
    plans := RolePlans(ZeroRows(), ZERO, ZeroPolicy(ppm));
    forall i | 0 <= i < 3
      ensures plans[i].start == 3_000_000_000 && plans[i].startError == Interval(-3000 * ppm, 3000 * ppm)
    {
      ZeroPlan(i, ppm);
    }
  }

  lemma ZeroCohortAccepted(ppm: int)
    requires 0 <= ppm <= MILLION
    ensures Accepted(ZeroRows(), RUN, ZERO, ZeroPolicy(ppm))
    ensures var plan := Proposal(ZeroRows(), RUN, ZERO, ZeroPolicy(ppm));
            |plan.roles| == |ZeroRows()| == 3 && plan.skew == 6000 * ppm
            && forall r :: 0 <= r < 3 ==>
              plan.roles[r].start == 3_000_000_000
              && plan.roles[r].startError.hi == 3000 * ppm
  {
    hide RoleAccepted, RolePlans, Seen, ZeroRow, ZeroRows;
    ZeroRowsShape();
    var plans := ZeroRolePlans(ppm);
    forall r: nat | r < 3 ensures RoleAccepted(ZeroRows()[r], r, RUN, ZERO, ZeroPolicy(ppm), Seen(ZeroRows(), r)) {
      ZeroRowAccepted(r, ppm);
    }
    AllEqual(Uppers(plans), 3000 * ppm);
    AllEqual(Lowers(plans), -3000 * ppm);
  }

  function Paced(rate: real, t: real): real { rate * t }

  /** A coordinator showing the instant itself, and a node running at another rate from a common zero. */
  ghost function PacedScene(rate: real, at: Instant): Scene {
    Scene(t => t, t => Paced(rate, t), [Sighting(0.0, 0.0, 0.0), Sighting(0.0, 0.0, 0.0), Sighting(0.0, 0.0, 0.0)], at)
  }

  lemma PacedDrift(rate: real, ppm: int, s: real, t: real)
    requires RealAbs(1.0 - rate) * 1000000.0 <= ppm as real && s <= t
    ensures RealAbs((rate * t - t) - (rate * s - s)) * 1000000.0 <= ppm as real * (t - s)
  {
    var lag, passed, most := 1.0 - rate, t - s, RealAbs(1.0 - rate);
    assert (rate * t - t) - (rate * s - s) == -(lag * passed);
    Scaled(0.0, most, passed, most * passed);
    assert RealAbs(-(lag * passed)) == most * passed;
    Scaled(most * 1000000.0, ppm as real, passed, ppm as real * passed);
  }

  lemma PacedDriftAt(c: Clock, n: Clock, rate: real, ppm: int, s: Instant, t: Instant)
    requires RealAbs(1.0 - rate) * 1000000.0 <= ppm as real && s <= t
    requires c(s) == s && c(t) == t && n(s) == Paced(rate, s) && n(t) == Paced(rate, t)
    ensures RealAbs((n(t) - c(t)) - (n(s) - c(s))) * 1000000.0 <= ppm as real * (c(t) - c(s))
  {
    PacedDrift(rate, ppm, s, t);
  }

  lemma PacedSceneDrifts(rate: real, at: Instant, ppm: int)
    requires RealAbs(1.0 - rate) * 1000000.0 <= ppm as real
    ensures BoundedDrift(PacedScene(rate, at).coordinator, PacedScene(rate, at).node, ppm, 0.0, at)
  {
    hide RealAbs, Paced;
    var c, n := PacedScene(rate, at).coordinator, PacedScene(rate, at).node;
    forall s, t | 0.0 <= s <= t <= at
      ensures RealAbs((n(t) - c(t)) - (n(s) - c(s))) * 1000000.0 <= ppm as real * (c(t) - c(s))
    {
      PacedDriftAt(c, n, rate, ppm, s, t);
    }
  }

  lemma PacedSceneStarts(rate: real, at: Instant)
    ensures PacedScene(rate, at).coordinator(0.0) == 0.0 && PacedScene(rate, at).node(0.0) == 0.0
    ensures |PacedScene(rate, at).sightings| == 3
    ensures forall i :: 0 <= i < 3 ==> PacedScene(rate, at).sightings[i] == Sighting(0.0, 0.0, 0.0)
  {
  }

  lemma PacedScenePlausible(rate: real, at: Instant, ppm: int, role: int)
    requires 0.0 < rate && 0.0 <= at && RealAbs(1.0 - rate) * 1000000.0 <= ppm as real
    ensures Plausible(PacedScene(rate, at), ZeroRow(role).exchanges, ppm)
  {
    PacedSceneDrifts(rate, at, ppm);
    PacedSceneStarts(rate, at);
    ZeroReads(role);
    assert PacedScene(rate, at).at == at;
    hide BoundedDrift, RealAbs, ZeroRow, PacedScene;
  }

  lemma ZeroReads(role: int)
    ensures |ZeroRow(role).exchanges| == 3
    ensures forall i :: 0 <= i < 3 ==> var x := ZeroRow(role).exchanges[i]; x.before == x.after == x.node == ZERO
  {
  }

  /** With any positive rate, clocks within the assumptions fire after the reported bound. */
  lemma LateFiring(ppm: int)
    requires 0 < ppm <= MILLION
    ensures !ReportedUpperBoundHolds(ppm)
  {
    hide Accepted, Plausible, Proposal, ZeroRows, ZeroRow;
    var rate, at := SlowRate(ppm);
    var scene, rows, p := PacedScene(rate, at), ZeroRows(), ZeroPolicy(ppm);
    ZeroCohortAccepted(ppm);
    PacedScenePlausible(rate, at, ppm, 0);
    ZeroRowsShape();
    ProposalShape(rows, RUN, ZERO, p);
    assert Fires(scene, Proposal(rows, RUN, ZERO, p).roles[0]);
    assert FairCase(rows, RUN, ZERO, p, 0, scene);
  }

  /** The slowest admitted node reaches three seconds a little after 3 s + 3000 ppm. */
  lemma SlowRate(ppm: int) returns (rate: real, at: Instant)
    requires 0 < ppm <= MILLION
    ensures 0.0 < rate && RealAbs(1.0 - rate) * 1000000.0 <= ppm as real && rate * at == 3_000_000_000.0
    ensures at == 3_000_000_000.0 + 3000.0 * ppm as real + 0.003 * (ppm as real * ppm as real)
    ensures at - 3_000_000_000.0 > (3000 * ppm) as real
  {
    var q := ppm as real;
    at := 3_000_000_000.0 + 3000.0 * q + 0.003 * (q * q);
    assert at > 3_000_000_000.0 + 3000.0 * q by { assert q * q > 0.0; }
    rate := 3_000_000_000.0 / at;
    RateOf(rate, q, at);
  }

  lemma RateOf(rate: real, q: real, at: real)
    requires q > 0.0 && at == 3_000_000_000.0 + 3000.0 * q + 0.003 * (q * q)
    requires rate == 3_000_000_000.0 / at && at > 3_000_000_000.0
    ensures rate * at == 3_000_000_000.0
    ensures 0.0 < rate <= 1.0 && (1.0 - rate) * 1000000.0 <= q
  {
    assert rate * at == 3_000_000_000.0;
    var excess := (1.0 - rate) * 1000000.0 - q;
    assert excess * at == 1000000.0 * at - 1000000.0 * (rate * at) - q * at;
    CubeLeft(q, at);
    if rate <= 0.0 { Scaled(rate, 0.0, at, 0.0); }
    if rate > 1.0 { Scaled(1.0, rate, at, 3_000_000_000.0); }
    if excess > 0.0 { Scaled(0.0, excess, at, excess * at); }
  }

  lemma CubeLeft(q: real, at: real)
    requires q > 0.0 && at == 3_000_000_000.0 + 3000.0 * q + 0.003 * (q * q)
    ensures 1000000.0 * at - 3_000_000_000_000_000.0 - q * at < 0.0
  {
    var square := q * q;
    assert q * at == 3_000_000_000.0 * q + 3000.0 * square + 0.003 * (square * q);
    assert square * q > 0.0;
  }

  // ---- The reported skew ----

  /** Two roles of an accepted proposal with clocks that meet all its assumptions. */
  ghost predicate FairPair(rows: seq<Observation>, runId: Identifier, now: Stamp, p: Policy,
                           a: nat, sceneA: Scene, startA: real, b: nat, sceneB: Scene, startB: real)
  {
    && Accepted(rows, runId, now, p) && a < |rows| && b < |rows| && a != b
    && StartsAt(sceneA, rows, runId, now, p, a, startA) && StartsAt(sceneB, rows, runId, now, p, b, startB)
  }

  /** Under a drift rate, no fair pair starts further apart than the reported skew. */
  ghost predicate ReportedSkewHolds(ppm: int) {
    forall rows, runId, now, p: Policy, a: nat, sceneA, startA, b: nat, sceneB, startB ::
      p.driftPpm == ppm && FairPair(rows, runId, now, p, a, sceneA, startA, b, sceneB, startB) ==>
        startA - startB <= Proposal(rows, runId, now, p).skew as real
  }

  /** The reported pairwise skew, too, is a true bound for all cohorts and clocks exactly when the rate is zero. */
  lemma ReportedSkewHoldsIffNoDrift(ppm: int)
    requires 0 <= ppm <= MILLION
    ensures ReportedSkewHolds(ppm) <==> ppm == 0
  {
    if ppm == 0 {
      forall rows, runId, now, p: Policy, a: nat, sceneA, startA, b: nat, sceneB, startB |
        p.driftPpm == ppm && FairPair(rows, runId, now, p, a, sceneA, startA, b, sceneB, startB)
        ensures startA - startB <= Proposal(rows, runId, now, p).skew as real
      {
        hide Accepted, StartsAt, Proposal;
        PairwiseSkewBound(rows, runId, now, p, a, sceneA, startA, b, sceneB, startB);
      }
    } else {
      FarApart(ppm);
    }
  }

  /** With any positive rate, a slow and a fast node within the assumptions start further apart than reported. */
  lemma FarApart(ppm: int)
    requires 0 < ppm <= MILLION
    ensures !ReportedSkewHolds(ppm)
  {
    hide Accepted, Plausible, Proposal, ZeroRows, ZeroRow, PacedScene;
    var slow, late := SlowRate(ppm);
    var fast, soon := FastRate(ppm);
    var rows, p := ZeroRows(), ZeroPolicy(ppm);
    ZeroCohortAccepted(ppm);
    ZeroStarts(slow, late, ppm, 0);
    ZeroStarts(fast, soon, ppm, 1);
    assert FairPair(rows, RUN, ZERO, p, 0, PacedScene(slow, late), late, 1, PacedScene(fast, soon), soon);
    FurtherApart(ppm as real, late, soon, fast);
  }

  lemma ZeroStarts(rate: real, at: Instant, ppm: int, role: nat)
    requires 0 < ppm <= MILLION && role < 3
    requires 0.0 < rate && 0.0 <= at && RealAbs(1.0 - rate) * 1000000.0 <= ppm as real && rate * at == 3_000_000_000.0
    ensures Accepted(ZeroRows(), RUN, ZERO, ZeroPolicy(ppm)) && |ZeroRows()| == 3
    ensures StartsAt(PacedScene(rate, at), ZeroRows(), RUN, ZERO, ZeroPolicy(ppm), role, at)
  {
    hide Accepted, Plausible, Proposal, ZeroRows, ZeroRow;
    ZeroRowsShape();
    ZeroCohortAccepted(ppm);
    PacedScenePlausible(rate, at, ppm, role);
    PacedSceneFires(rate, at);
    hide PacedScene;
  }

  lemma PacedSceneFires(rate: real, at: Instant)
    requires rate * at == 3_000_000_000.0
    ensures PacedScene(rate, at).at == at && PacedScene(rate, at).coordinator(at) == at
    ensures PacedScene(rate, at).node(at) == 3_000_000_000.0
  {
  }

  /** The fastest admitted node reaches three seconds early. */
  lemma FastRate(ppm: int) returns (rate: real, at: Instant)
    requires 0 < ppm <= MILLION
    ensures rate == 1.0 + ppm as real / 1000000.0 && RealAbs(1.0 - rate) * 1000000.0 <= ppm as real
    ensures 0.0 <= at && rate * at == 3_000_000_000.0
  {
    rate := 1.0 + ppm as real / 1000000.0;
    at := 3_000_000_000.0 / rate;
    assert rate * at == 3_000_000_000.0;
    if at < 0.0 { Scaled(at, 0.0, rate, 0.0); }
  }

  /** A node slow by the rate starts later than one fast by it by more than twice the drift over three seconds. */
  lemma FurtherApart(q: real, late: real, soon: real, fast: real)
    requires q > 0.0 && late == 3_000_000_000.0 + 3000.0 * q + 0.003 * (q * q)
    requires fast == 1.0 + q / 1000000.0 && fast * soon == 3_000_000_000.0
    ensures late - soon > 6000.0 * q
  {
    var apart, square, cube := late - soon - 6000.0 * q, q * q, q * q * q;
    assert cube > 0.0;
    assert q * late == 3_000_000_000.0 * q + 3000.0 * square + 0.003 * cube;
    assert fast * late == late + q * late / 1000000.0;
    assert fast * q == q + square / 1000000.0;
    assert fast * apart == fast * late - fast * soon - 6000.0 * (fast * q);
    assert fast * apart == 0.000000003 * cube;
    if apart <= 0.0 { Scaled(apart, 0.0, fast, 0.0); }
  }
}
