/**
 What a start proposal is worth (scripts/pi_lab_clock.py, plan_start): the
 envelopes and start errors it reports bound the real clocks, given the
 assumptions it lists, and exactly when its plain error bound can be trusted.
 */
module StartSoundness {
  import opened Aggregates
  import opened ClockExchange
  import opened StartPlan

  /** The offset changes by at most ppm parts per million of the coordinator wall time that passes. */
  ghost predicate BoundedDrift(c: Clock, n: Clock, ppm: int, from: Instant, to: Instant) {
    forall s, t :: from <= s <= t <= to ==>
      RealAbs((n(t) - c(t)) - (n(s) - c(s))) * 1000000.0 <= ppm as real * (c(t) - c(s))
  }

  /** The real clocks of one node and the coordinator, when the exchanges were read, and an instant after them. */
  datatype Scene = Scene(coordinator: Clock, node: Clock, sightings: seq<Sighting>, at: Instant)

  /** The listed assumptions: no steps, and a bounded relative rate, from every exchange up to the instant. */
  ghost predicate Plausible(scene: Scene, xs: seq<Exchange>, ppm: int) {
    && |scene.sightings| == |xs|
    && forall i :: 0 <= i < |xs| ==> SightingPlausible(scene, xs[i], scene.sightings[i], ppm)
  }

  ghost predicate SightingPlausible(scene: Scene, x: Exchange, s: Sighting, ppm: int) {
    && Observes(x, scene.coordinator, scene.node, s)
    && s.received <= scene.at
    && NoStepBack(scene.coordinator, s.sent, scene.at)
    && BoundedDrift(scene.coordinator, scene.node, ppm, s.sent, scene.at)
  }

  /** How far the coordinator's clock is past the reference at the scene's instant, or zero before it. */
  ghost function Past(scene: Scene, reference: int): real {
    var e := scene.coordinator(scene.at) - reference as real;
    if e < 0.0 then 0.0 else e
  }

  // ---- Envelopes ----

  /** The whole-nanosecond margin is never smaller than the drift it stands for. */
  lemma CeilingRoundsOutward(horizon: int, ppm: int)
    requires 0 <= horizon && 0 <= ppm
    ensures horizon * ppm <= Ceiling(horizon, ppm) * MILLION < horizon * ppm + MILLION
  {
    var product := horizon * ppm;
    assert (product + 999_999) / MILLION * MILLION + (product + 999_999) % MILLION == product + 999_999;
  }

  /** The drift accumulated over some coordinator wall time, scaled by a million. */
  ghost function Drift(ppm: int, elapsed: real): real { ppm as real * elapsed }

  lemma DriftWithin(d: real, ppm: int, elapsed: real, horizon: int, past: real)
    requires 0 <= ppm && 0 <= horizon && past >= 0.0
    requires elapsed <= horizon as real + past
    requires RealAbs(d) * 1000000.0 <= Drift(ppm, elapsed)
    ensures RealAbs(d) * 1000000.0 <= Ceiling(horizon, ppm) as real * 1000000.0 + Drift(ppm, past)
  {
    CeilingRoundsOutward(horizon, ppm);
    var r := ppm as real;
    assert r * elapsed <= r * (horizon as real + past);
    assert r * (horizon as real + past) == r * horizon as real + r * past;
    assert r * horizon as real == (horizon * ppm) as real;
  }

  lemma DriftBetween(scene: Scene, x: Exchange, s: Sighting, ppm: int)
    requires SightingPlausible(scene, x, s, ppm)
    ensures var c, n := scene.coordinator, scene.node;
            RealAbs(Offset(c, n, scene.at) - Offset(c, n, s.read)) * 1000000.0 <= Drift(ppm, c(scene.at) - c(s.read))
  {
  }

  /** The true offset leaves the interval by no more than the drift after the reference. */
  ghost predicate OffsetWithin(bounds: Interval, scene: Scene, reference: int, p: Policy) {
    var offset, drifted := Offset(scene.coordinator, scene.node, scene.at), Drift(p.driftPpm, Past(scene, reference));
    && (bounds.lo as real - offset) * 1000000.0 <= drifted
    && (offset - bounds.hi as real) * 1000000.0 <= drifted
  }

  /** The widened interval of one exchange holds the true offset up to the reference, and drifts away only after it. */
  lemma SampleBoundsOffset(x: Exchange, s: Sighting, scene: Scene, now: Stamp, p: Policy)
    requires ValidPolicy(p) && Genuine(x) && x.before.unix <= now.unix + p.lead
    requires SightingPlausible(scene, x, s, p.driftPpm)
    ensures OffsetWithin(SampleOf(x, now, p).bounds, scene, now.unix + p.lead, p)
    ensures SampleOf(x, now, p).bounds.lo <= SampleOf(x, now, p).bounds.hi
  {
    MarginNonnegative(x, now, p);
    hide Drift, Ceiling, Genuine, BoundedDrift;
    var c, n, reference := scene.coordinator, scene.node, now.unix + p.lead;
    ExchangeBracketsOffset(x, c, n, s);
    DriftBetween(scene, x, s, p.driftPpm);
    var d := Offset(c, n, scene.at) - Offset(c, n, s.read);
    DriftWithin(d, p.driftPpm, c(scene.at) - c(s.read), reference - x.before.unix, Past(scene, reference));
  }

  /** The selected offset lies in the envelope, and start and errors are measured from it. */
  ghost predicate Centred(plan: RolePlan, reference: int, p: Policy) {
    && plan.offset.lo <= plan.selected <= plan.offset.hi
    && plan.start == reference + plan.selected
    && plan.startError == Interval(plan.selected - plan.offset.hi, plan.selected - plan.offset.lo + p.maxLateness)
  }

  lemma PlanBoundsOffset(role: int, xs: seq<Exchange>, runId: Identifier, now: Stamp, p: Policy, scene: Scene)
    requires ValidPolicy(p) && |xs| > 0
    requires forall i :: 0 <= i < |xs| ==> Usable(xs[i], runId, now, p)
    requires Plausible(scene, xs, p.driftPpm)
    ensures var plan := PlanOf(role, Samples(xs, now, p), now, p);
            OffsetWithin(plan.offset, scene, now.unix + p.lead, p) && Centred(plan, now.unix + p.lead, p)
  {
    hide Drift, Ceiling, Genuine, SightingPlausible;
    var samples := Samples(xs, now, p);
    assert Usable(xs[0], runId, now, p) && SightingPlausible(scene, xs[0], scene.sightings[0], p.driftPpm);
    SampleBoundsOffset(xs[0], scene.sightings[0], scene, now, p);
    assert Lows(samples)[0] == samples[0].bounds.lo && Highs(samples)[0] == samples[0].bounds.hi;
  }

  lemma MarginNonnegative(x: Exchange, now: Stamp, p: Policy)
    requires ValidPolicy(p) && x.before.unix <= now.unix + p.lead
    ensures SampleOf(x, now, p).margin >= 0
  {
    var horizon := now.unix + p.lead - x.before.unix;
    assert horizon * p.driftPpm >= 0;
  }

  lemma AcceptedRole(rows: seq<Observation>, runId: Identifier, now: Stamp, p: Policy, role: nat)
    requires Accepted(rows, runId, now, p) && role < |rows|
    ensures ValidPolicy(p) && forall r :: 0 <= r < |rows| ==> |rows[r].exchanges| == 3
    ensures forall i :: 0 <= i < 3 ==> Usable(rows[role].exchanges[i], runId, now, p)
    ensures Proposal(rows, runId, now, p).roles[role] == PlanOf(role, Samples(rows[role].exchanges, now, p), now, p)
  {
    hide Usable, PlanOf, Samples;
    assert forall r :: 0 <= r < |rows| ==> RoleAccepted(rows[r], r, runId, now, p, Seen(rows, r));
  }

  /** Every accepted plan's envelope contains the true offset at the reference instant. */
  lemma EnvelopeContainsTrueOffset(rows: seq<Observation>, runId: Identifier, now: Stamp, p: Policy, role: nat,
                                   scene: Scene)
    requires Accepted(rows, runId, now, p) && role < |rows|
    requires Plausible(scene, rows[role].exchanges, p.driftPpm)
    requires scene.coordinator(scene.at) == (now.unix + p.lead) as real
    ensures Proposal(rows, runId, now, p).roles[role].offset.lo as real
            <= Offset(scene.coordinator, scene.node, scene.at)
            <= Proposal(rows, runId, now, p).roles[role].offset.hi as real
  {
    hide Accepted, Usable, PlanOf, Drift, Plausible, Samples;
    AcceptedRole(rows, runId, now, p, role);
    PlanBoundsOffset(role, rows[role].exchanges, runId, now, p, scene);
    NoDrift(p.driftPpm);
  }

  lemma NoDrift(ppm: int)
    ensures Drift(ppm, 0.0) == 0.0
    ensures ppm == 0 ==> forall t :: Drift(ppm, t) == 0.0
  {
  }

  /** Under the assumptions the consistency refusal cannot fire, however many exchanges are widened. */
  lemma NoFalseContradiction(xs: seq<Exchange>, runId: Identifier, now: Stamp, p: Policy, scene: Scene)
    requires ValidPolicy(p)
    requires forall i :: 0 <= i < |xs| ==> Usable(xs[i], runId, now, p)
    requires Plausible(scene, xs, p.driftPpm)
    requires scene.coordinator(scene.at) == (now.unix + p.lead) as real
    ensures Consistent(Samples(xs, now, p))
  {
    hide Usable, SampleOf, Drift, SightingPlausible, Genuine;
    NoDrift(p.driftPpm);
    var samples := Samples(xs, now, p);
    forall i, j | 0 <= i < |xs| && 0 <= j < |xs| ensures samples[i].bounds.lo <= samples[j].bounds.hi {
      UsableFacts(xs[i], runId, now, p);
      UsableFacts(xs[j], runId, now, p);
      SampleBoundsOffset(xs[i], scene.sightings[i], scene, now, p);
      SampleBoundsOffset(xs[j], scene.sightings[j], scene, now, p);
    }
  }

  lemma UsableFacts(x: Exchange, runId: Identifier, now: Stamp, p: Policy)
    requires Usable(x, runId, now, p)
    ensures Genuine(x) && x.before.unix <= now.unix + p.lead
  {
  }

  // ---- Start errors ----

  /** The node's clock shows the proposed start at the scene's instant. */
  ghost predicate Fires(scene: Scene, plan: RolePlan) { scene.node(scene.at) == plan.start as real }

  ghost function StartError(scene: Scene, reference: int): real { scene.coordinator(scene.at) - reference as real }

  /**
   The error is at least the reported lower bound. The reported upper bound, less the
   lateness, holds once the error is scaled down by the rate at which drift goes on after
   the reference; it holds as it stands when that rate is zero.
   */
  ghost predicate ErrorWithin(e: real, plan: RolePlan, p: Policy) {
    && plan.startError.lo as real <= e
    && e * (MILLION - p.driftPpm) as real <= 1000000.0 * (plan.startError.hi - p.maxLateness) as real
    && (p.driftPpm == 0 ==> e <= (plan.startError.hi - p.maxLateness) as real)
  }

  /** The reported lower bound is exact; the upper one is amplified by the drift that goes on after the reference. */
  lemma StartErrorBounds(rows: seq<Observation>, runId: Identifier, now: Stamp, p: Policy, role: nat, scene: Scene)
    requires Accepted(rows, runId, now, p) && role < |rows|
    requires Plausible(scene, rows[role].exchanges, p.driftPpm)
    requires Fires(scene, Proposal(rows, runId, now, p).roles[role])
    ensures ErrorWithin(StartError(scene, now.unix + p.lead), Proposal(rows, runId, now, p).roles[role], p)
  {
    hide Accepted, Usable, OffsetWithin, Plausible, Samples, ErrorWithin, PlanOf, Centred, Fires, StartError;
    AcceptedRole(rows, runId, now, p, role);
    PlanBoundsOffset(role, rows[role].exchanges, runId, now, p, scene);
    ErrorFromOffset(Proposal(rows, runId, now, p).roles[role], scene, now.unix + p.lead, p);
  }

  lemma ErrorFromOffset(plan: RolePlan, scene: Scene, reference: int, p: Policy)
    requires ValidPolicy(p) && Fires(scene, plan)
    requires Centred(plan, reference, p)
    requires OffsetWithin(plan.offset, scene, reference, p)
    ensures ErrorWithin(StartError(scene, reference), plan, p)
  {
    hide Drift;
    NoDrift(p.driftPpm);
    AmplifiedUpper(StartError(scene, reference), p.driftPpm, plan.selected - plan.offset.lo, Past(scene, reference));
  }

  lemma AmplifiedUpper(e: real, ppm: int, slack: int, past: real)
    requires 0 <= ppm <= MILLION && slack >= 0
    requires past == if e < 0.0 then 0.0 else e
    requires (e - slack as real) * 1000000.0 <= Drift(ppm, past)
    ensures e * (MILLION - ppm) as real <= 1000000.0 * slack as real
  {
    var rest := (MILLION - ppm) as real;
    assert rest == 1000000.0 - ppm as real;
    if e < 0.0 {
      assert e * rest <= 0.0;
    } else {
      assert e * rest == e * 1000000.0 - ppm as real * e;
    }
  }

  lemma Scaled(x: real, y: real, k: real, bound: real)
    requires x <= y && 0.0 <= k && y * k <= bound
    ensures x * k <= bound
  {
    assert x * k <= y * k;
  }

  /** A node's start in reference time: the error of its firing plus its local lateness. */
  ghost predicate StartsAt(scene: Scene, rows: seq<Observation>, runId: Identifier, now: Stamp, p: Policy, role: nat,
                           start: real)
    requires Accepted(rows, runId, now, p) && role < |rows|
  {
    && Plausible(scene, rows[role].exchanges, p.driftPpm)
    && Fires(scene, Proposal(rows, runId, now, p).roles[role])
    && 0.0 <= start - scene.coordinator(scene.at) <= p.maxLateness as real
  }

  /** Every true pairwise skew obeys the amplified expression, and the reported number itself when the rate is zero. */
  lemma PairwiseSkewBound(rows: seq<Observation>, runId: Identifier, now: Stamp, p: Policy,
                          a: nat, sceneA: Scene, startA: real, b: nat, sceneB: Scene, startB: real)
    requires Accepted(rows, runId, now, p) && a < |rows| && b < |rows|
    requires StartsAt(sceneA, rows, runId, now, p, a, startA) && StartsAt(sceneB, rows, runId, now, p, b, startB)
    ensures SkewWithin(startA - startB, Proposal(rows, runId, now, p), a, b, p)
  {
    hide Accepted, Plausible, PlanOf, Samples, ErrorWithin, SkewWithin, Usable;
    AcceptedRole(rows, runId, now, p, a);
    ProposalShape(rows, runId, now, p);
    hide Proposal;
    StartErrorBounds(rows, runId, now, p, a, sceneA);
    StartErrorBounds(rows, runId, now, p, b, sceneB);
    var reference := now.unix + p.lead;
    SkewFromErrors(Proposal(rows, runId, now, p), a, b, p, startA - startB, StartError(sceneA, reference),
                   StartError(sceneB, reference));
  }

  lemma ProposalShape(rows: seq<Observation>, runId: Identifier, now: Stamp, p: Policy)
    requires |rows| > 0 && forall r :: 0 <= r < |rows| ==> |rows[r].exchanges| == 3
    ensures |Proposal(rows, runId, now, p).roles| == |rows|
    ensures Proposal(rows, runId, now, p).skew == SkewOf(Proposal(rows, runId, now, p).roles)
  {
  }

  /** The claimed skew expression, built from the proven error bounds of the two roles. */
  ghost predicate SkewWithin(skew: real, plan: Plan, a: nat, b: nat, p: Policy)
    requires a < |plan.roles| && b < |plan.roles|
  {
    && (skew - p.maxLateness as real + plan.roles[b].startError.lo as real) * (MILLION - p.driftPpm) as real
       <= 1000000.0 * (plan.roles[a].startError.hi - p.maxLateness) as real
    && (p.driftPpm == 0 ==> skew <= plan.skew as real)
  }

  lemma SkewFromErrors(plan: Plan, a: nat, b: nat, p: Policy, skew: real, errorA: real, errorB: real)
    requires ValidPolicy(p) && a < |plan.roles| && b < |plan.roles| && plan.skew == SkewOf(plan.roles)
    requires ErrorWithin(errorA, plan.roles[a], p) && ErrorWithin(errorB, plan.roles[b], p)
    requires skew <= errorA + p.maxLateness as real - errorB
    ensures SkewWithin(skew, plan, a, b, p)
  {
    var excess := skew - p.maxLateness as real + plan.roles[b].startError.lo as real;
    assert excess <= errorA;
    Scaled(excess, errorA, (MILLION - p.driftPpm) as real,
           1000000.0 * (plan.roles[a].startError.hi - p.maxLateness) as real);
    assert Uppers(plan.roles)[a] == plan.roles[a].startError.hi && Lowers(plan.roles)[b] == plan.roles[b].startError.lo;
  }
}
