/**
 What every number of a start proposal says (scripts/pi_lab_clock.py:115-187), in terms of the exchanges it was made
 from, and which cohorts get one.
 */
module StartMeaning {
  import opened Aggregates
  import opened ClockExchange
  import opened StartPlan

  // ---- One exchange ----

  ghost predicate InInterval(i: Interval, n: int) { i.lo <= n <= i.hi }

  /** An offset within the margin of one the exchange allows. */
  ghost predicate Near(x: Exchange, margin: int, offset: int) {
    exists seen :: InInterval(x.offset, seen) && Abs(offset - seen) <= margin
  }

  /** The margin is the least whole number of nanoseconds that covers the drift up to the reference. */
  ghost predicate Covers(margin: int, horizon: int, ppm: int) {
    (margin - 1) * 1_000_000 < horizon * ppm <= margin * 1_000_000
  }

  ghost predicate SampleMeans(s: Sample, x: Exchange, now: Stamp, p: Policy) {
    && Covers(s.margin, now.unix + p.lead - x.before.unix, p.driftPpm)
    && (forall offset :: InInterval(s.bounds, offset) <==> Near(x, s.margin, offset))
    && (forall sent, planned :: Placed(x.before, sent) && Placed(now, planned) ==> planned - sent <= s.age)
    && (exists sent, planned :: Placed(x.before, sent) && Placed(now, planned) && planned - sent == s.age)
  }

  lemma SampleIsExact(x: Exchange, now: Stamp, p: Policy)
    requires ValidStamp(x.before) && ValidStamp(now) && x.offset.lo <= x.offset.hi
    requires 0 <= p.driftPpm && 0 <= now.unix + p.lead - x.before.unix
    ensures SampleMeans(SampleOf(x, now, p), x, now, p)
  {
    var s := SampleOf(x, now, p);
    CeilingCovers(now.unix + p.lead - x.before.unix, p.driftPpm);
    hide Ceiling;
    forall offset ensures InInterval(s.bounds, offset) <==> Near(x, s.margin, offset) {
      var seen := if offset < x.offset.lo then x.offset.lo else if offset > x.offset.hi then x.offset.hi else offset;
      if InInterval(s.bounds, offset) { assert InInterval(x.offset, seen); }
    }
    assert Placed(x.before, x.before.monoBefore) && Placed(now, now.monoAfter);
  }

  lemma CeilingCovers(horizon: int, ppm: int)
    requires 0 <= horizon && 0 <= ppm
    ensures Covers(Ceiling(horizon, ppm), horizon, ppm) && 0 <= Ceiling(horizon, ppm)
  {
    Positive(horizon, ppm);
  }

  lemma Positive(x: int, y: int)
    requires 0 <= x && 0 <= y
    ensures 0 <= x * y
  {
  }

  // ---- One role ----

  /** The furthest that an end of a widened interval lies from the selected offset. */
  ghost predicate Furthest(samples: seq<Sample>, selected: int, distance: int) {
    && (forall i :: 0 <= i < |samples| ==>
          Abs(samples[i].bounds.lo - selected) <= distance && Abs(samples[i].bounds.hi - selected) <= distance)
    && exists i :: 0 <= i < |samples|
         && (Abs(samples[i].bounds.lo - selected) == distance || Abs(samples[i].bounds.hi - selected) == distance)
  }

  /** The smallest interval that holds every widened one. */
  ghost predicate Hull(samples: seq<Sample>, e: Interval) {
    && (forall i :: 0 <= i < |samples| ==> e.lo <= samples[i].bounds.lo && samples[i].bounds.hi <= e.hi)
    && (exists i :: 0 <= i < |samples| && samples[i].bounds.lo == e.lo)
    && (exists i :: 0 <= i < |samples| && samples[i].bounds.hi == e.hi)
  }

  /** What firing at the start, late by at most the lateness, can err by if the offset is in the envelope. */
  ghost predicate ErrorPossible(plan: RolePlan, lateness: int, error: int) {
    exists offset :: InInterval(plan.offset, offset) && 0 <= error - (plan.selected - offset) <= lateness
  }

  ghost predicate PlanMeans(plan: RolePlan, role: int, samples: seq<Sample>, now: Stamp, p: Policy) {
    && plan.role == role && plan.samples == samples && Hull(samples, plan.offset)
    && 2 * plan.selected <= plan.offset.lo + plan.offset.hi < 2 * plan.selected + 2
    && plan.start - plan.selected == now.unix + p.lead
    && Furthest(samples, plan.selected, plan.uncertainty)
    && forall error :: InInterval(plan.startError, error) <==> ErrorPossible(plan, p.maxLateness, error)
  }

  lemma HullIs(samples: seq<Sample>)
    requires |samples| > 0
    ensures Hull(samples, Interval(MinOf(Lows(samples)), MaxOf(Highs(samples))))
  {
    var lows, highs := Lows(samples), Highs(samples);
    var i :| 0 <= i < |lows| && lows[i] == MinOf(lows);
    var j :| 0 <= j < |highs| && highs[j] == MaxOf(highs);
    assert samples[i].bounds.lo == MinOf(lows) && samples[j].bounds.hi == MaxOf(highs);
    forall k | 0 <= k < |samples| ensures MinOf(lows) <= samples[k].bounds.lo && samples[k].bounds.hi <= MaxOf(highs) {
      assert lows[k] == samples[k].bounds.lo && highs[k] == samples[k].bounds.hi;
    }
  }

  /** The midpoint rounded down is furthest from one of the hull's ends. */
  lemma FurthestIs(samples: seq<Sample>, e: Interval, selected: int, distance: int)
    requires Hull(samples, e) && e.lo <= selected <= e.hi && distance == Max(selected - e.lo, e.hi - selected)
    requires forall i :: 0 <= i < |samples| ==> samples[i].bounds.lo <= samples[i].bounds.hi
    ensures Furthest(samples, selected, distance)
  {
    var i :| 0 <= i < |samples| && samples[i].bounds.lo == e.lo;
    var j :| 0 <= j < |samples| && samples[j].bounds.hi == e.hi;
    assert Abs(samples[i].bounds.lo - selected) == selected - e.lo;
    assert Abs(samples[j].bounds.hi - selected) == e.hi - selected;
  }

  lemma PlanIsExact(role: int, samples: seq<Sample>, now: Stamp, p: Policy)
    requires |samples| > 0 && 0 <= p.maxLateness
    requires forall i :: 0 <= i < |samples| ==> samples[i].bounds.lo <= samples[i].bounds.hi
    ensures PlanMeans(PlanOf(role, samples, now, p), role, samples, now, p)
  {
    var plan := PlanOf(role, samples, now, p);
    var e := Interval(MinOf(Lows(samples)), MaxOf(Highs(samples)));
    HullIs(samples);
    assert plan.offset == e && e.lo <= e.hi;
    FurthestIs(samples, e, plan.selected, plan.uncertainty);
    hide Hull, Furthest, Lows, Highs, MinOf, MaxOf, ErrorPossible;
    forall error ensures InInterval(plan.startError, error) <==> ErrorPossible(plan, p.maxLateness, error) {
      ErrorsAre(plan, p.maxLateness, error);
    }
  }

  lemma ErrorsAre(plan: RolePlan, lateness: int, error: int)
    requires plan.offset.lo <= plan.offset.hi && 0 <= lateness
    requires plan.startError == Interval(plan.selected - plan.offset.hi, plan.selected - plan.offset.lo + lateness)
    ensures InInterval(plan.startError, error) <==> ErrorPossible(plan, lateness, error)
  {
    var offset := if plan.selected - error <= plan.offset.hi then Max(plan.offset.lo, plan.selected - error)
      else plan.offset.hi;
    assert InInterval(plan.startError, error) ==> InInterval(plan.offset, offset);
  }

  // ---- The cohort ----

  /** Two roles' errors, or one role's own, may differ by this much at most, and some do. */
  ghost predicate WidestError(plans: seq<RolePlan>, skew: int) {
    && (forall a, b :: 0 <= a < |plans| && 0 <= b < |plans| ==>
          plans[a].startError.hi - plans[b].startError.lo <= skew)
    && exists a, b :: 0 <= a < |plans| && 0 <= b < |plans| && plans[a].startError.hi - plans[b].startError.lo == skew
  }

  lemma SkewIsWidest(plans: seq<RolePlan>)
    requires |plans| > 0
    ensures WidestError(plans, SkewOf(plans))
  {
    var uppers, lowers := Uppers(plans), Lowers(plans);
    var a :| 0 <= a < |uppers| && uppers[a] == MaxOf(uppers);
    var b :| 0 <= b < |lowers| && lowers[b] == MinOf(lowers);
    forall i | 0 <= i < |plans|
      ensures plans[i].startError.hi <= MaxOf(uppers) && MinOf(lowers) <= plans[i].startError.lo {
      assert uppers[i] == plans[i].startError.hi && lowers[i] == plans[i].startError.lo;
    }
    assert plans[a].startError.hi - plans[b].startError.lo == SkewOf(plans);
  }

  /** One exchange is good for planning: genuine, within the limits, of this run, over, recent and not in the future. */
  ghost predicate Good(x: Exchange, runId: Identifier, now: Stamp, p: Policy) {
    && Genuine(x) && x.runId == runId
    && Issues(x, Checks(p.maxRoundTrip, p.maxOffsetWidth, p.maxWallChange)) == []
    && x.after.monoAfter <= now.monoBefore && x.before.unix <= now.unix + p.lead
    && (forall sent, planned :: Placed(x.before, sent) && Placed(now, planned) ==> planned - sent <= p.maxAge)
    && (forall received, planned :: Placed(x.after, received) && Placed(now, planned) ==>
          Abs((now.unix - x.after.unix) - (planned - received)) <= p.maxWallChange)
  }

  lemma GoodIs(x: Exchange, runId: Identifier, now: Stamp, p: Policy)
    requires ValidStamp(now)
    ensures Usable(x, runId, now, p) <==> Good(x, runId, now, p)
  {
    hide Issues, Derive, ValidRaw;
    if Genuine(x) {
      assert ValidStamp(x.before) && ValidStamp(x.after) by { GenuineIff(x); }
      hide Genuine, Disagreement;
      DisagreementOverPlacements(x.after, now, p.maxWallChange);
      assert Placed(x.before, x.before.monoBefore) && Placed(now, now.monoAfter);
    }
  }

  /** Each exchange is over, on both machines, before the next begins. */
  ghost predicate InOrder(xs: seq<Exchange>) {
    forall i :: 0 < i < |xs| ==>
      xs[i - 1].after.monoAfter <= xs[i].before.monoBefore && xs[i - 1].node.monoAfter <= xs[i].node.monoBefore
  }

  /** Any two widened intervals share an offset. */
  ghost predicate Overlapping(samples: seq<Sample>) {
    forall i, j :: 0 <= i < |samples| && 0 <= j < |samples| ==> samples[i].bounds.lo <= samples[j].bounds.hi
  }

  /** Three good exchanges in order, of which any two can share an offset, centred closely enough. */
  ghost predicate RowMeans(row: Observation, role: int, runId: Identifier, now: Stamp, p: Policy, plan: RolePlan) {
    && row.role == role && |row.exchanges| == 3
    && (forall i :: 0 <= i < 3 ==> Good(row.exchanges[i], runId, now, p))
    && InOrder(row.exchanges)
    && Overlapping(plan.samples) && plan.uncertainty <= p.maxStartUncertainty && 0 <= plan.start < 0x8000_0000_0000_0000
  }

  /** No nonce is used twice, by whatever role. */
  ghost predicate NoncesDiffer(rows: seq<Observation>) {
    forall r, i, s, j :: Taken(rows, r, i) && Taken(rows, s, j) && (r != s || i != j) ==>
      rows[r].exchanges[i].nonce != rows[s].exchanges[j].nonce
  }

  ghost predicate Taken(rows: seq<Observation>, r: int, i: int) {
    0 <= r < |rows| && 0 <= i < |rows[r].exchanges|
  }

  lemma OwnNonces(xs: seq<Exchange>)
    ensures Distinct(NoncesOf(xs)) <==> forall i, j :: 0 <= i < j < |xs| ==> xs[i].nonce != xs[j].nonce
    ensures forall n :: n in NoncesOf(xs) <==> exists i :: 0 <= i < |xs| && xs[i].nonce == n
  {
    var own := NoncesOf(xs);
    forall i | 0 <= i < |xs| ensures own[i] == xs[i].nonce && own[i] in own { }
  }

  lemma SeenIs(rows: seq<Observation>, k: nat, n: int)
    requires k <= |rows|
    ensures n in Seen(rows, k) <==> exists r, i :: Taken(rows, r, i) && r < k && rows[r].exchanges[i].nonce == n
  {
    hide NoncesOf;
    if n in Seen(rows, k) {
      var r :| 0 <= r < k && n in NoncesOf(rows[r].exchanges);
      OwnNonces(rows[r].exchanges);
      var i :| 0 <= i < |rows[r].exchanges| && rows[r].exchanges[i].nonce == n;
      assert Taken(rows, r, i);
    }
    if r, i :| Taken(rows, r, i) && r < k && rows[r].exchanges[i].nonce == n {
      OwnNonces(rows[r].exchanges);
      assert n in NoncesOf(rows[r].exchanges);
    }
  }

  ghost predicate RowFresh(rows: seq<Observation>, k: nat)
    requires k < |rows|
  {
    Fresh(NoncesOf(rows[k].exchanges), Seen(rows, k))
  }

  lemma RowFreshIs(rows: seq<Observation>, k: nat)
    requires k < |rows|
    ensures RowFresh(rows, k) <==> forall r, i, j ::
      Taken(rows, r, i) && Taken(rows, k, j) && (r < k || (r == k && i < j)) ==>
        rows[r].exchanges[i].nonce != rows[k].exchanges[j].nonce
  {
    var own, seen := NoncesOf(rows[k].exchanges), Seen(rows, k);
    OwnNonces(rows[k].exchanges);
    forall n ensures n in seen <==> exists r, i :: Taken(rows, r, i) && r < k && rows[r].exchanges[i].nonce == n {
      SeenIs(rows, k, n);
    }
    hide NoncesOf, Seen, Distinct;
    if RowFresh(rows, k) {
      forall r, i, j | Taken(rows, r, i) && Taken(rows, k, j) && (r < k || (r == k && i < j))
        ensures rows[r].exchanges[i].nonce != rows[k].exchanges[j].nonce
      {
        assert rows[k].exchanges[j].nonce in own;
      }
    }
    if forall r, i, j :: Taken(rows, r, i) && Taken(rows, k, j) && (r < k || (r == k && i < j)) ==>
      rows[r].exchanges[i].nonce != rows[k].exchanges[j].nonce
    {
      forall i, j | 0 <= i < j < |rows[k].exchanges|
        ensures rows[k].exchanges[i].nonce != rows[k].exchanges[j].nonce {
        assert Taken(rows, k, i) && Taken(rows, k, j);
      }
      forall n | n in own ensures n !in seen {
        var j :| 0 <= j < |rows[k].exchanges| && rows[k].exchanges[j].nonce == n;
        assert Taken(rows, k, j);
      }
    }
  }

  lemma AllFreshIs(rows: seq<Observation>)
    ensures NoncesDiffer(rows) <==> forall k :: 0 <= k < |rows| ==> RowFresh(rows, k)
  {
    forall k | 0 <= k < |rows|
      ensures RowFresh(rows, k) <==> forall r, i, j ::
        Taken(rows, r, i) && Taken(rows, k, j) && (r < k || (r == k && i < j)) ==>
          rows[r].exchanges[i].nonce != rows[k].exchanges[j].nonce
    {
      RowFreshIs(rows, k);
    }
    hide RowFresh;
    if forall k :: 0 <= k < |rows| ==> RowFresh(rows, k) {
      forall r, i, s, j | Taken(rows, r, i) && Taken(rows, s, j) && (r != s || i != j)
        ensures rows[r].exchanges[i].nonce != rows[s].exchanges[j].nonce
      {
        assert RowFresh(rows, r) && RowFresh(rows, s);
      }
    }
  }

  lemma CollectedIs(xs: seq<Exchange>, runId: Identifier, now: Stamp, p: Policy, seen: set<int>)
    requires |xs| == 3 && ValidStamp(now)
    ensures Collected(xs, 3, runId, now, p, seen) <==>
      && (forall i :: 0 <= i < 3 ==> Good(xs[i], runId, now, p)) && InOrder(xs)
      && Fresh(NoncesOf(xs), seen)
  {
    GoodIs(xs[0], runId, now, p);
    GoodIs(xs[1], runId, now, p);
    GoodIs(xs[2], runId, now, p);
    assert xs[..3] == xs;
    hide Usable, Good, Fresh, NoncesOf;
  }

  lemma RowIs(rows: seq<Observation>, k: nat, runId: Identifier, now: Stamp, p: Policy)
    requires k < |rows| && ValidStamp(now) && |rows[k].exchanges| == 3
    ensures RoleAccepted(rows[k], k, runId, now, p, Seen(rows, k)) <==>
      RowMeans(rows[k], k, runId, now, p, PlanOf(k, Samples(rows[k].exchanges, now, p), now, p)) && RowFresh(rows, k)
  {
    var row := rows[k];
    var plan := PlanOf(k, Samples(row.exchanges, now, p), now, p);
    CollectedIs(row.exchanges, runId, now, p, Seen(rows, k));
    AcceptedParts(row, k, runId, now, p, Seen(rows, k));
    assert plan.samples == Samples(row.exchanges, now, p);
    hide *;
    MeansParts(row, k, runId, now, p, plan);
    ConsistentParts(plan.samples);
    FreshParts(rows, k);
  }

  lemma AcceptedParts(row: Observation, k: int, runId: Identifier, now: Stamp, p: Policy, seen: set<int>)
    requires |row.exchanges| == 3
    ensures var samples := Samples(row.exchanges, now, p);
      RoleAccepted(row, k, runId, now, p, seen) <==>
        && row.role == k && Collected(row.exchanges, 3, runId, now, p, seen) && Consistent(samples)
        && PlanOf(k, samples, now, p).uncertainty <= p.maxStartUncertainty
        && 0 <= PlanOf(k, samples, now, p).start < 0x8000_0000_0000_0000
  {
    hide Collected, Consistent, PlanOf, Samples;
  }

  lemma ConsistentParts(samples: seq<Sample>)
    ensures Consistent(samples) <==> Overlapping(samples)
  {
  }

  lemma FreshParts(rows: seq<Observation>, k: nat)
    requires k < |rows|
    ensures RowFresh(rows, k) <==> Fresh(NoncesOf(rows[k].exchanges), Seen(rows, k))
  {
  }

  lemma MeansParts(row: Observation, k: int, runId: Identifier, now: Stamp, p: Policy, plan: RolePlan)
    requires |row.exchanges| == 3
    ensures RowMeans(row, k, runId, now, p, plan) <==>
      && row.role == k && (forall i :: 0 <= i < 3 ==> Good(row.exchanges[i], runId, now, p)) && InOrder(row.exchanges)
      && Overlapping(plan.samples) && plan.uncertainty <= p.maxStartUncertainty
      && 0 <= plan.start < 0x8000_0000_0000_0000
  {
    hide Good, InOrder, Overlapping;
  }

  /** A proposal exists exactly for these cohorts. */
  lemma AcceptedIff(rows: seq<Observation>, runId: Identifier, now: Stamp, p: Policy)
    ensures Accepted(rows, runId, now, p) <==>
      && ValidPolicy(p) && ValidStamp(now) && 3 <= |rows| <= 5 && now.unix + p.lead < 0x8000_0000_0000_0000
      && (forall k :: 0 <= k < |rows| ==> |rows[k].exchanges| == 3)
      && NoncesDiffer(rows)
      && var plan := Proposal(rows, runId, now, p);
      && |plan.roles| == |rows| && plan.skew <= p.maxStartSkew
      && forall k :: 0 <= k < |rows| ==> RowMeans(rows[k], k, runId, now, p, plan.roles[k])
  {
    hide ValidPolicy, ValidStamp, RoleAccepted, RowMeans, RowFresh, Seen, PlanOf, Samples, SkewOf, NoncesDiffer,
      Proposal, RolePlans;
    forall k | 0 <= k < |rows|
      ensures RoleAccepted(rows[k], k, runId, now, p, Seen(rows, k)) ==> |rows[k].exchanges| == 3
    {
      StaysAccepted(rows, k, runId, now, p);
    }
    if ValidStamp(now) && |rows| > 0 && forall k :: 0 <= k < |rows| ==> |rows[k].exchanges| == 3 {
      AllFreshIs(rows);
      ProposalIs(rows, runId, now, p);
      forall k | 0 <= k < |rows|
        ensures RoleAccepted(rows[k], k, runId, now, p, Seen(rows, k)) <==>
          && RowMeans(rows[k], k, runId, now, p, PlanOf(k, Samples(rows[k].exchanges, now, p), now, p))
          && RowFresh(rows, k)
      {
        RowIs(rows, k, runId, now, p);
      }
    }
  }

  lemma StaysAccepted(rows: seq<Observation>, k: nat, runId: Identifier, now: Stamp, p: Policy)
    requires k < |rows|
    ensures RoleAccepted(rows[k], k, runId, now, p, Seen(rows, k)) ==> |rows[k].exchanges| == 3
  {
    hide Collected, Seen, Samples;
  }

  lemma ProposalIs(rows: seq<Observation>, runId: Identifier, now: Stamp, p: Policy)
    requires |rows| > 0 && forall k :: 0 <= k < |rows| ==> |rows[k].exchanges| > 0
    ensures var plan := Proposal(rows, runId, now, p);
      && plan.runId == runId && plan.policy == p && plan.plannedAt == now && plan.reference == now.unix + p.lead
      && |plan.roles| == |rows| && plan.skew == SkewOf(RolePlans(rows, now, p)) && plan.roles == RolePlans(rows, now, p)
      && forall k :: 0 <= k < |rows| ==> plan.roles[k] == PlanOf(k, Samples(rows[k].exchanges, now, p), now, p)
  {
    hide PlanOf, Samples, SkewOf;
  }

  lemma PlanKeepsSamples(role: int, samples: seq<Sample>, now: Stamp, p: Policy)
    requires |samples| > 0
    ensures PlanOf(role, samples, now, p).samples == samples
  {
  }

  /** What an exchange must have for its sample to mean anything: valid reads, an offset and a horizon. */
  ghost predicate Sampled(x: Exchange, now: Stamp, p: Policy) {
    ValidStamp(x.before) && x.offset.lo <= x.offset.hi && 0 <= now.unix + p.lead - x.before.unix
  }

  lemma GoodRow(row: Observation, role: int, runId: Identifier, now: Stamp, p: Policy, plan: RolePlan)
    requires RowMeans(row, role, runId, now, p, plan)
    ensures |row.exchanges| == 3 && forall i :: 0 <= i < 3 ==> Sampled(row.exchanges[i], now, p)
  {
    forall i | 0 <= i < 3 ensures Sampled(row.exchanges[i], now, p) {
      var x := row.exchanges[i];
      assert Good(x, runId, now, p);
      GoodSampled(x, runId, now, p);
    }
    hide Good, Sampled, InOrder;
  }

  lemma GoodSampled(x: Exchange, runId: Identifier, now: Stamp, p: Policy)
    requires Good(x, runId, now, p)
    ensures Sampled(x, now, p)
  {
    ClockIssueReportedIff(x, ChecksOf(p));
    assert OffsetEnvelopeLimit !in Issues(x, ChecksOf(p));
    hide Issues, Lasted;
  }

  lemma SamplesMean(xs: seq<Exchange>, now: Stamp, p: Policy)
    requires ValidStamp(now) && 0 <= p.driftPpm && forall i :: 0 <= i < |xs| ==> Sampled(xs[i], now, p)
    ensures forall i :: 0 <= i < |xs| ==>
      && SampleMeans(Samples(xs, now, p)[i], xs[i], now, p)
      && Samples(xs, now, p)[i].bounds.lo <= Samples(xs, now, p)[i].bounds.hi
  {
    forall i | 0 <= i < |xs|
      ensures SampleMeans(Samples(xs, now, p)[i], xs[i], now, p)
      ensures Samples(xs, now, p)[i].bounds.lo <= Samples(xs, now, p)[i].bounds.hi
    {
      SampleIsExact(xs[i], now, p);
      CeilingCovers(now.unix + p.lead - xs[i].before.unix, p.driftPpm);
      hide SampleMeans, Ceiling;
    }
  }

  /** Every number of an accepted proposal is what its own exchanges say. */
  lemma ProposalMeans(rows: seq<Observation>, runId: Identifier, now: Stamp, p: Policy, k: nat)
    requires Accepted(rows, runId, now, p) && k < |rows|
    ensures forall r :: 0 <= r < |rows| ==> |rows[r].exchanges| == 3
    ensures var plan := Proposal(rows, runId, now, p);
      && plan.runId == runId && plan.policy == p && plan.plannedAt == now && plan.reference == now.unix + p.lead
      && |plan.roles| == |rows| && WidestError(plan.roles, plan.skew)
      && RoleMeans(plan.roles[k], k, rows[k].exchanges, now, p)
  {
    AcceptedShape(rows, runId, now, p);
    hide *;
    ProposalIs(rows, runId, now, p);
    var plan := Proposal(rows, runId, now, p);
    SkewIsWidest(plan.roles);
    GoodRow(rows[k], k, runId, now, p, plan.roles[k]);
    RoleIsExact(k, rows[k].exchanges, now, p, plan.roles[k]);
  }

  lemma RoleIsExact(role: int, xs: seq<Exchange>, now: Stamp, p: Policy, plan: RolePlan)
    requires |xs| == 3 && plan == PlanOf(role, Samples(xs, now, p), now, p)
    requires ValidStamp(now) && 0 <= p.driftPpm && 0 <= p.maxLateness
    requires forall i :: 0 <= i < 3 ==> Sampled(xs[i], now, p)
    ensures RoleMeans(plan, role, xs, now, p)
  {
    var samples := Samples(xs, now, p);
    hide SampleMeans, PlanMeans, PlanOf, Samples, ValidStamp, Sampled;
    SamplesMean(xs, now, p);
    PlanIsExact(role, samples, now, p);
    PlanKeepsSamples(role, samples, now, p);
  }

  ghost predicate RoleMeans(plan: RolePlan, role: int, xs: seq<Exchange>, now: Stamp, p: Policy) {
    && PlanMeans(plan, role, plan.samples, now, p) && |plan.samples| == |xs|
    && forall i :: 0 <= i < |xs| ==> SampleMeans(plan.samples[i], xs[i], now, p)
  }

  lemma AcceptedShape(rows: seq<Observation>, runId: Identifier, now: Stamp, p: Policy)
    requires Accepted(rows, runId, now, p)
    ensures ValidStamp(now) && 3 <= |rows| && 0 <= p.driftPpm && 0 <= p.maxLateness
    ensures forall k :: 0 <= k < |rows| ==> |rows[k].exchanges| == 3
    ensures var plan := Proposal(rows, runId, now, p);
      |plan.roles| == |rows| && forall k :: 0 <= k < |rows| ==> RowMeans(rows[k], k, runId, now, p, plan.roles[k])
  {
    AcceptedIff(rows, runId, now, p);
    hide Accepted, Proposal, RowMeans, NoncesDiffer, ValidStamp;
  }

  /** Nine limits, of which the lead is 3 to 15 s, the age at most 60 s and the drift at most a million ppm. */
  lemma ValidPolicyIff(p: Policy)
    ensures ValidPolicy(p) <==>
      && (forall n ::
            n in [p.lead, p.maxAge, p.maxRoundTrip, p.maxOffsetWidth, p.maxWallChange, p.driftPpm,
                  p.maxStartUncertainty, p.maxLateness, p.maxStartSkew] ==>
              0 <= n < 0x8000_0000_0000_0000)
      && 3_000_000_000 <= p.lead <= 15_000_000_000 && 1 <= p.maxAge <= 60_000_000_000 && p.driftPpm <= 1_000_000
  {
    var all := [p.lead, p.maxAge, p.maxRoundTrip, p.maxOffsetWidth, p.maxWallChange, p.driftPpm,
                p.maxStartUncertainty, p.maxLateness, p.maxStartSkew];
    assert all[0] in all && all[1] in all && all[2] in all && all[3] in all && all[4] in all && all[5] in all;
    assert all[6] in all && all[7] in all && all[8] in all;
  }
}
