/**
 The compensated start proposal (scripts/pi_lab_clock.py, plan_start): three
 exchanges per node, widened by a drift margin, united into one envelope per node.
 */
module StartPlan {
  import opened Aggregates
  import opened ClockExchange

  const MILLION := 1_000_000

  datatype Policy = Policy(
    lead: int, maxAge: int, maxRoundTrip: int, maxOffsetWidth: int, maxWallChange: int,
    driftPpm: int, maxStartUncertainty: int, maxLateness: int, maxStartSkew: int)

  datatype Observation = Observation(role: int, exchanges: seq<Exchange>)

  /** What one exchange contributes: its widened interval, age and drift margin. */
  datatype Sample = Sample(bounds: Interval, age: int, margin: int)

  datatype RolePlan = RolePlan(
    role: int, start: int, offset: Interval, selected: int, uncertainty: int,
    samples: seq<Sample>, startError: Interval)

  datatype Plan = Plan(runId: Identifier, policy: Policy, plannedAt: Stamp, reference: int, roles: seq<RolePlan>,
                       skew: int)

  predicate ValidPolicy(p: Policy) {
    && Bounded(p.lead) && Bounded(p.maxAge) && Bounded(p.maxRoundTrip) && Bounded(p.maxOffsetWidth)
    && Bounded(p.maxWallChange) && Bounded(p.driftPpm) && Bounded(p.maxStartUncertainty)
    && Bounded(p.maxLateness) && Bounded(p.maxStartSkew)
    && 3_000_000_000 <= p.lead <= 15_000_000_000
    && 0 < p.maxAge <= 60_000_000_000
    && p.driftPpm <= MILLION
  }

  function ChecksOf(p: Policy): Checks { Checks(p.maxRoundTrip, p.maxOffsetWidth, p.maxWallChange) }

  // ---- One exchange ----

  /** Ceiling of the drift over a horizon, in whole nanoseconds. */
  function Ceiling(horizon: int, ppm: int): int { (horizon * ppm + 999_999) / MILLION }

  function SampleOf(x: Exchange, now: Stamp, p: Policy): Sample {
    var margin := Ceiling(now.unix + p.lead - x.before.unix, p.driftPpm);
    Sample(Interval(x.offset.lo - margin, x.offset.hi + margin), now.monoAfter - x.before.monoBefore, margin)
  }

  /** The coordinator's wall and monotonic clocks still agree, over the whole age of the observation. */
  predicate MappingKept(x: Exchange, now: Stamp, p: Policy) { Disagreement(x.after, now) <= p.maxWallChange }

  predicate Usable(x: Exchange, runId: Identifier, now: Stamp, p: Policy) {
    && Genuine(x) && Issues(x, ChecksOf(p)) == []
    && x.runId == runId
    && x.after.monoAfter <= now.monoBefore
    && now.monoAfter - x.before.monoBefore <= p.maxAge
    && MappingKept(x, now, p)
    && x.before.unix <= now.unix + p.lead
  }

  method CheckExchange(x: Exchange, runId: Identifier, now: Stamp, p: Policy) returns (sample: Option<Sample>)
    requires ValidPolicy(p)
    ensures sample.Some? <==> Usable(x, runId, now, p)
    ensures sample.Some? ==> sample.value == SampleOf(x, now, p)
  {
    var issues := Assess(x, ChecksOf(p));
    if issues.None? || issues.value != [] || x.runId != runId { return None; }
    if now.monoBefore < x.after.monoAfter { return None; }
    var age := now.monoAfter - x.before.monoBefore;
    if age > p.maxAge { return None; }
    var elapsedMin, elapsedMax := now.monoBefore - x.after.monoAfter, now.monoAfter - x.after.monoBefore;
    var wallElapsed := now.unix - x.after.unix;
    if Max(Abs(wallElapsed - elapsedMin), Abs(wallElapsed - elapsedMax)) > p.maxWallChange { return None; }
    var horizon := now.unix + p.lead - x.before.unix;
    if horizon < 0 { return None; }
    var margin := (horizon * p.driftPpm + 999_999) / MILLION;
    return Some(Sample(Interval(x.offset.lo - margin, x.offset.hi + margin), age, margin));
  }

  // ---- The exchanges of one role ----

  function Samples(xs: seq<Exchange>, now: Stamp, p: Policy): (r: seq<Sample>)
    ensures |r| == |xs|
  {
    seq(|xs|, i requires 0 <= i < |xs| => SampleOf(xs[i], now, p))
  }

  function NoncesOf(xs: seq<Exchange>): (r: seq<int>)
    ensures |r| == |xs|
  {
    seq(|xs|, i requires 0 <= i < |xs| => xs[i].nonce)
  }

  ghost predicate Fresh(nonces: seq<int>, seen: set<int>) {
    Distinct(nonces) && forall n :: n in nonces ==> n !in seen
  }

  /** The first k exchanges are usable, follow one another and carry unseen, distinct nonces. */
  ghost predicate Collected(xs: seq<Exchange>, k: nat, runId: Identifier, now: Stamp, p: Policy, seen: set<int>)
    requires k <= |xs|
  {
    && (forall i :: 0 <= i < k ==> Usable(xs[i], runId, now, p))
    && (forall i :: 0 < i < k ==> Follows(xs[i - 1], xs[i]))
    && Fresh(NoncesOf(xs[..k]), seen)
  }

  method Collect(xs: seq<Exchange>, runId: Identifier, now: Stamp, p: Policy, seen: set<int>)
    returns (samples: Option<seq<Sample>>, nonces: set<int>)
    requires ValidPolicy(p)
    ensures samples.Some? <==> Collected(xs, |xs|, runId, now, p, seen)
    ensures samples.Some? ==> samples.value == Samples(xs, now, p)
    ensures samples.Some? ==> forall n :: n in nonces <==> n in seen || n in NoncesOf(xs)
  {
    hide Usable, SampleOf;
    var taken: seq<Sample>, previousCoordinator, previousNode := [], -1, -1;
    nonces := seen;
    assert xs[..|xs|] == xs;
    for k := 0 to |xs|
      invariant Collected(xs, k, runId, now, p, seen)
      invariant k > 0 ==> previousCoordinator == xs[k - 1].after.monoAfter && previousNode == xs[k - 1].node.monoAfter
      invariant k == 0 ==> previousCoordinator == previousNode == -1
      invariant taken == Samples(xs[..k], now, p)
      invariant forall n :: n in nonces <==> n in seen || n in NoncesOf(xs[..k])
    {
      var x := xs[k];
      Extend(xs, k, runId, now, p, seen);
      var sample := CheckExchange(x, runId, now, p);
      if sample.None? || x.nonce in nonces { return None, nonces; }
      nonces := nonces + {x.nonce};
      if x.before.monoBefore < previousCoordinator || x.node.monoBefore < previousNode {
        assert k > 0 ==> !Follows(xs[k - 1], xs[k]);
        UsableIsBounded(x, runId, now, p);
        return None, nonces;
      }
      previousCoordinator, previousNode := x.after.monoAfter, x.node.monoAfter;
      taken := taken + [sample.value];
    }
    samples := Some(taken);
  }

  lemma UsableIsBounded(x: Exchange, runId: Identifier, now: Stamp, p: Policy)
    requires Usable(x, runId, now, p)
    ensures x.before.monoBefore >= 0 && x.node.monoBefore >= 0
  {
  }

  lemma Extend(xs: seq<Exchange>, k: nat, runId: Identifier, now: Stamp, p: Policy, seen: set<int>)
    requires k < |xs|
    ensures NoncesOf(xs[..k + 1]) == NoncesOf(xs[..k]) + [xs[k].nonce]
    ensures Fresh(NoncesOf(xs[..k + 1]), seen) <==>
            Fresh(NoncesOf(xs[..k]), seen) && xs[k].nonce !in NoncesOf(xs[..k]) && xs[k].nonce !in seen
    ensures Samples(xs[..k + 1], now, p) == Samples(xs[..k], now, p) + [SampleOf(xs[k], now, p)]
    ensures Collected(xs, |xs|, runId, now, p, seen) ==> Collected(xs, k + 1, runId, now, p, seen)
  {
    hide Usable, SampleOf;
    var shorter, longer := NoncesOf(xs[..k]), NoncesOf(xs[..k + 1]);
    assert longer == shorter + [xs[k].nonce];
    DistinctSnoc(shorter, xs[k].nonce);
    if Collected(xs, |xs|, runId, now, p, seen) {
      assert longer == NoncesOf(xs)[..k + 1];
      assert xs[..|xs|] == xs;
      DistinctPrefix(NoncesOf(xs), k + 1);
    }
  }

  lemma DistinctPrefix<T>(s: seq<T>, k: nat)
    requires k <= |s| && Distinct(s)
    ensures Distinct(s[..k])
    ensures forall x :: x in s[..k] ==> x in s
  {
  }

  // ---- One role ----

  function Lows(samples: seq<Sample>): (r: seq<int>)
    ensures |r| == |samples| && forall i :: 0 <= i < |r| ==> r[i] == samples[i].bounds.lo
  {
    seq(|samples|, i requires 0 <= i < |samples| => samples[i].bounds.lo)
  }

  function Highs(samples: seq<Sample>): (r: seq<int>)
    ensures |r| == |samples| && forall i :: 0 <= i < |r| ==> r[i] == samples[i].bounds.hi
  {
    seq(|samples|, i requires 0 <= i < |samples| => samples[i].bounds.hi)
  }

  /** Every two widened intervals overlap. */
  predicate Consistent(samples: seq<Sample>) {
    forall i, j :: 0 <= i < |samples| && 0 <= j < |samples| ==> samples[i].bounds.lo <= samples[j].bounds.hi
  }

  /** The plan drawn from the union extent of the widened intervals, never from their intersection. */
  function PlanOf(role: int, samples: seq<Sample>, now: Stamp, p: Policy): RolePlan
    requires |samples| > 0
  {
    var e := Interval(MinOf(Lows(samples)), MaxOf(Highs(samples)));
    var selected := (e.lo + e.hi) / 2;
    RolePlan(role, now.unix + p.lead + selected, e, selected, Max(selected - e.lo, e.hi - selected), samples,
             Interval(selected - e.hi, selected - e.lo + p.maxLateness))
  }

  ghost predicate RoleAccepted(row: Observation, role: int, runId: Identifier, now: Stamp, p: Policy, seen: set<int>) {
    && row.role == role && |row.exchanges| == 3
    && Collected(row.exchanges, 3, runId, now, p, seen)
    && var samples := Samples(row.exchanges, now, p);
    && Consistent(samples)
    && PlanOf(role, samples, now, p).uncertainty <= p.maxStartUncertainty
    && Bounded(PlanOf(role, samples, now, p).start)
  }

  method PlanRole(row: Observation, role: int, runId: Identifier, now: Stamp, p: Policy, seen: set<int>)
    returns (plan: Option<RolePlan>, nonces: set<int>)
    requires ValidPolicy(p)
    ensures plan.Some? <==> RoleAccepted(row, role, runId, now, p, seen)
    ensures plan.Some? ==> plan.value == PlanOf(role, Samples(row.exchanges, now, p), now, p)
    ensures plan.Some? ==> forall n :: n in nonces <==> n in seen || n in NoncesOf(row.exchanges)
  {
    hide Usable, SampleOf, Collected, Samples, PlanOf, Consistent;
    if row.role != role || |row.exchanges| != 3 { return None, seen; }
    var collected, nonces' := Collect(row.exchanges, runId, now, p, seen);
    nonces := nonces';
    if collected.None? { return None, nonces; }
    plan := Centre(role, collected.value, now, p);
  }

  method Centre(role: int, samples: seq<Sample>, now: Stamp, p: Policy) returns (plan: Option<RolePlan>)
    requires |samples| > 0
    ensures plan.Some? <==> Consistent(samples) && PlanOf(role, samples, now, p).uncertainty <= p.maxStartUncertainty
                            && Bounded(PlanOf(role, samples, now, p).start)
    ensures plan.Some? ==> plan.value == PlanOf(role, samples, now, p)
  {
    hide Consistent;
    var reference := now.unix + p.lead;
    var lows, highs := Lows(samples), Highs(samples);
    ConsistentIffNested(samples);
    if MaxOf(lows) > MinOf(highs) { return None; }
    var lower, upper := MinOf(lows), MaxOf(highs);
    var offset := (lower + upper) / 2;
    var uncertainty := Max(offset - lower, upper - offset);
    var start := reference + offset;
    if uncertainty > p.maxStartUncertainty || !(0 <= start < INT63) { return None; }
    plan := Some(RolePlan(role, start, Interval(lower, upper), offset, uncertainty, samples,
                          Interval(offset - upper, offset - lower + p.maxLateness)));
  }

  lemma ConsistentIffNested(samples: seq<Sample>)
    requires |samples| > 0
    ensures Consistent(samples) <==> MaxOf(Lows(samples)) <= MinOf(Highs(samples))
  {
    var lows, highs := Lows(samples), Highs(samples);
    var i :| 0 <= i < |lows| && lows[i] == MaxOf(lows);
    var j :| 0 <= j < |highs| && highs[j] == MinOf(highs);
    assert samples[i].bounds.lo == MaxOf(lows) && samples[j].bounds.hi == MinOf(highs);
    if MaxOf(lows) <= MinOf(highs) {
      forall a, b | 0 <= a < |samples| && 0 <= b < |samples| ensures samples[a].bounds.lo <= samples[b].bounds.hi {
        assert lows[a] <= MaxOf(lows) && MinOf(highs) <= highs[b];
      }
    }
  }

  // ---- The whole cohort ----

  /** The nonces of the rows before k. */
  ghost function Seen(rows: seq<Observation>, k: nat): set<int>
    requires k <= |rows|
  {
    set r, n | 0 <= r < k && n in NoncesOf(rows[r].exchanges) :: n
  }

  function RolePlans(rows: seq<Observation>, now: Stamp, p: Policy): (r: seq<RolePlan>)
    requires forall i :: 0 <= i < |rows| ==> |rows[i].exchanges| > 0
    ensures |r| == |rows|
  {
    seq(|rows|, i requires 0 <= i < |rows| => PlanOf(i, Samples(rows[i].exchanges, now, p), now, p))
  }

  function Uppers(plans: seq<RolePlan>): (r: seq<int>)
    ensures |r| == |plans|
  {
    seq(|plans|, i requires 0 <= i < |plans| => plans[i].startError.hi)
  }

  function Lowers(plans: seq<RolePlan>): (r: seq<int>)
    ensures |r| == |plans|
  {
    seq(|plans|, i requires 0 <= i < |plans| => plans[i].startError.lo)
  }

  function SkewOf(plans: seq<RolePlan>): int
    requires |plans| > 0
  {
    MaxOf(Uppers(plans)) - MinOf(Lowers(plans))
  }

  ghost predicate RolesAccepted(rows: seq<Observation>, k: nat, runId: Identifier, now: Stamp, p: Policy)
    requires k <= |rows|
  {
    forall r :: 0 <= r < k ==> RoleAccepted(rows[r], r, runId, now, p, Seen(rows, r))
  }

  ghost predicate Accepted(rows: seq<Observation>, runId: Identifier, now: Stamp, p: Policy) {
    && ValidPolicy(p) && ValidStamp(now) && 3 <= |rows| <= 5
    && now.unix + p.lead < INT63
    && RolesAccepted(rows, |rows|, runId, now, p)
    && SkewOf(RolePlans(rows, now, p)) <= p.maxStartSkew
  }

  function Proposal(rows: seq<Observation>, runId: Identifier, now: Stamp, p: Policy): Plan
    requires |rows| > 0 && forall i :: 0 <= i < |rows| ==> |rows[i].exchanges| > 0
  {
    var plans := RolePlans(rows, now, p);
    Plan(runId, p, now, now.unix + p.lead, plans, SkewOf(plans))
  }

  method PlanStart(observations: seq<Observation>, runId: Identifier, now: Stamp, p: Policy)
    returns (plan: Option<Plan>)
    ensures plan.Some? <==> Accepted(observations, runId, now, p)
    ensures plan.Some? ==> plan.value == Proposal(observations, runId, now, p)
  {
    hide RoleAccepted, PlanOf, Samples, Seen;
    if !ValidPolicy(p) || !ValidStamp(now) || !(3 <= |observations| <= 5) { return None; }
    var reference := now.unix + p.lead;
    if reference >= INT63 { return None; }
    var roles: seq<RolePlan>, nonces := [], {};
    assert Seen(observations, 0) == {} by { SeenNothing(observations); }
    for role := 0 to |observations|
      invariant RolesAccepted(observations, role, runId, now, p)
      invariant nonces == Seen(observations, role)
      invariant |roles| == role
      invariant forall r :: 0 <= r < role ==>
        |observations[r].exchanges| > 0 && roles[r] == PlanOf(r, Samples(observations[r].exchanges, now, p), now, p)
    {
      var rolePlan, grown := PlanRole(observations[role], role, runId, now, p, nonces);
      if rolePlan.None? { return None; }
      SeenGrows(observations, role, nonces, grown);
      HasExchanges(observations[role], role, runId, now, p, nonces);
      roles, nonces := roles + [rolePlan.value], grown;
    }
    assert roles == RolePlans(observations, now, p);
    var skew := MaxOf(Uppers(roles)) - MinOf(Lowers(roles));
    if skew > p.maxStartSkew { return None; }
    plan := Some(Plan(runId, p, now, reference, roles, skew));
  }

  lemma HasExchanges(row: Observation, role: int, runId: Identifier, now: Stamp, p: Policy, seen: set<int>)
    requires RoleAccepted(row, role, runId, now, p, seen)
    ensures |row.exchanges| == 3
  {
  }

  lemma SeenNothing(rows: seq<Observation>)
    ensures Seen(rows, 0) == {}
  {
  }

  lemma SeenGrows(rows: seq<Observation>, k: nat, before: set<int>, after: set<int>)
    requires k < |rows| && before == Seen(rows, k)
    requires forall n :: n in after <==> n in before || n in NoncesOf(rows[k].exchanges)
    ensures after == Seen(rows, k + 1)
  {
    hide NoncesOf;
    forall n ensures n in after <==> n in Seen(rows, k + 1) {
      if n in Seen(rows, k + 1) {
        var r :| 0 <= r < k + 1 && n in NoncesOf(rows[r].exchanges);
      }
    }
  }
}
