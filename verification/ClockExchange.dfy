/**
 Clock exchange evidence (scripts/pi_lab_clock.py): three bracketed reads turned
 into an offset interval, and the exchange-only limits applied to it.
 Offsets are node wall time minus coordinator wall time.
 */
module ClockExchange {
  import opened Aggregates

  const INT63 := 0x8000_0000_0000_0000

  /** A name either matches the identifier pattern, and is then one of countably many, or it does not. */
  datatype Identifier = WellFormed(id: nat) | Malformed

  /** One wall-clock read between two monotonic reads. */
  datatype Stamp = Stamp(monoBefore: int, unix: int, monoAfter: int)

  datatype Interval = Interval(lo: int, hi: int)

  datatype Receipt = Receipt(version: int, kind: string, runId: Identifier, nonce: int, stamp: Stamp)

  datatype Exchange = Exchange(
    runId: Identifier, nonce: int, before: Stamp, after: Stamp, node: Stamp,
    roundTrip: Interval, wallChange: Interval, offset: Interval)

  datatype Checks = Checks(maxRoundTrip: int, maxOffsetWidth: int, maxWallChange: int)

  datatype ClockIssue = RoundTripLimit | OffsetEnvelopeLimit | CoordinatorWallChange

  predicate Bounded(n: int) { 0 <= n < INT63 }

  predicate ValidStamp(s: Stamp) {
    && Bounded(s.monoBefore) && Bounded(s.unix) && Bounded(s.monoAfter)
    && s.monoBefore <= s.monoAfter
  }

  predicate ValidChecks(c: Checks) {
    Bounded(c.maxRoundTrip) && Bounded(c.maxOffsetWidth) && Bounded(c.maxWallChange)
  }

  /** A nonce is 32 lower-case hexadecimal digits, that is, one 128-bit number. */
  predicate IsNonce(n: int) { 0 <= n < 0x1_0000_0000_0000_0000_0000_0000_0000_0000 }

  predicate ValidRaw(before: Stamp, after: Stamp, node: Stamp, runId: Identifier, nonce: int) {
    && runId.WellFormed? && IsNonce(nonce)
    && ValidStamp(before) && ValidStamp(after) && ValidStamp(node)
    && before.monoAfter <= after.monoBefore
  }

  function Derive(before: Stamp, after: Stamp, node: Stamp, runId: Identifier, nonce: int): Exchange {
    var shortest := after.monoBefore - before.monoAfter;
    var longest := after.monoAfter - before.monoBefore;
    var wall := after.unix - before.unix;
    Exchange(runId, nonce, before, after, node,
             Interval(shortest, longest),
             Interval(wall - longest, wall - shortest),
             Interval(node.unix - after.unix, node.unix - before.unix))
  }

  /** Validates one receipt and keeps the conservative intervals; a reversed wall keeps a reversed envelope. */
  function Evidence(before: Stamp, after: Stamp, remote: Receipt, runId: Identifier, nonce: int): (r: Option<Exchange>)
  {
    if runId.WellFormed? && IsNonce(nonce) && remote.version == 1 && remote.kind == "pi-clock-receipt"
       && remote.runId == runId && remote.nonce == nonce
       && ValidRaw(before, after, remote.stamp, runId, nonce)
    then Some(Derive(before, after, remote.stamp, runId, nonce))
    else None
  }

  /** A stored exchange whose derived fields are those its raw stamps give. */
  predicate Genuine(x: Exchange) {
    && ValidRaw(x.before, x.after, x.node, x.runId, x.nonce)
    && x == Derive(x.before, x.after, x.node, x.runId, x.nonce)
  }

  function Issues(x: Exchange, c: Checks): seq<ClockIssue> {
    (if x.roundTrip.hi > c.maxRoundTrip then [RoundTripLimit] else [])
    + (if x.offset.lo > x.offset.hi || x.offset.hi - x.offset.lo > c.maxOffsetWidth then [OffsetEnvelopeLimit] else [])
    + (if Max(Abs(x.wallChange.lo), Abs(x.wallChange.hi)) > c.maxWallChange then [CoordinatorWallChange] else [])
  }

  method Assess(value: Exchange, checks: Checks) returns (issues: Option<seq<ClockIssue>>)
    ensures issues.Some? <==> ValidChecks(checks) && Genuine(value)
    ensures issues.Some? ==> issues.value == Issues(value, checks)
  {
    if !ValidChecks(checks) { return None; }
    var rebuilt := Evidence(value.before, value.after,
                            Receipt(1, "pi-clock-receipt", value.runId, value.nonce, value.node),
                            value.runId, value.nonce);
    if rebuilt.None? || value != rebuilt.value { return None; }
    var found := [];
    if value.roundTrip.hi > checks.maxRoundTrip { found := found + [RoundTripLimit]; }
    if value.offset.lo > value.offset.hi || value.offset.hi - value.offset.lo > checks.maxOffsetWidth {
      found := found + [OffsetEnvelopeLimit];
    }
    if Max(Abs(value.wallChange.lo), Abs(value.wallChange.hi)) > checks.maxWallChange {
      found := found + [CoordinatorWallChange];
    }
    return Some(found);
  }

  /** One exchange is over, on both machines, before the next begins. */
  predicate Follows(x: Exchange, y: Exchange) {
    x.after.monoAfter <= y.before.monoBefore && x.node.monoAfter <= y.node.monoBefore
  }

  /** The largest disagreement of wall and monotonic time over every placement of two stamps' wall reads. */
  function Disagreement(first: Stamp, last: Stamp): int {
    var delta := last.unix - first.unix;
    Max(Abs(delta - (last.monoBefore - first.monoAfter)), Abs(delta - (last.monoAfter - first.monoBefore)))
  }

  // ---- What the stamps mean ----

  /** An instant of abstract time, and a clock that shows some reading at every instant. */
  type Instant = real
  type Clock = Instant -> real

  ghost function Offset(coordinator: Clock, node: Clock, t: Instant): real { node(t) - coordinator(t) }

  /** A wall read of a stamp can sit anywhere between the stamp's two monotonic reads. */
  ghost predicate Placed(s: Stamp, mono: int) { s.monoBefore <= mono <= s.monoAfter }

  /** The exchange limits, for one placement of the two coordinator wall reads. */
  ghost predicate MeetsLimits(x: Exchange, c: Checks, sent: int, received: int) {
    && received - sent <= c.maxRoundTrip
    && 0 <= x.after.unix - x.before.unix <= c.maxOffsetWidth
    && Abs((x.after.unix - x.before.unix) - (received - sent)) <= c.maxWallChange
  }

  /** No issue exactly when the limits are met wherever the wall reads fall inside their brackets. */
  lemma NoIssueIffEveryPlacementMeetsLimits(x: Exchange, c: Checks)
    requires Genuine(x)
    ensures Issues(x, c) == [] <==>
            forall sent, received :: Placed(x.before, sent) && Placed(x.after, received) ==>
              MeetsLimits(x, c, sent, received)
  {
    if forall sent, received :: Placed(x.before, sent) && Placed(x.after, received) ==>
      MeetsLimits(x, c, sent, received) {
      assert Placed(x.before, x.before.monoBefore) && Placed(x.after, x.after.monoAfter);
      assert Placed(x.before, x.before.monoAfter) && Placed(x.after, x.after.monoBefore);
      assert MeetsLimits(x, c, x.before.monoBefore, x.after.monoAfter);
      assert MeetsLimits(x, c, x.before.monoAfter, x.after.monoBefore);
    }
  }

  /** The instants of the three wall reads of one exchange. */
  datatype Sighting = Sighting(sent: Instant, read: Instant, received: Instant)

  ghost predicate Observes(x: Exchange, coordinator: Clock, node: Clock, s: Sighting) {
    && s.sent <= s.read <= s.received
    && coordinator(s.sent) == x.before.unix as real
    && node(s.read) == x.node.unix as real
    && coordinator(s.received) == x.after.unix as real
  }

  ghost predicate NoStepBack(c: Clock, from: Instant, to: Instant) {
    forall s, t :: from <= s <= t <= to ==> c(s) <= c(t)
  }

  /** Causality alone puts the true offset at the node's read inside the exchange's envelope. */
  lemma ExchangeBracketsOffset(x: Exchange, coordinator: Clock, node: Clock, s: Sighting)
    requires Genuine(x)
    requires Observes(x, coordinator, node, s)
    requires NoStepBack(coordinator, s.sent, s.received)
    ensures x.offset.lo as real <= Offset(coordinator, node, s.read) <= x.offset.hi as real
    ensures x.before.unix as real <= coordinator(s.read) <= x.after.unix as real
  {
  }

  /** A coordinator that steps back inside the exchange breaks the envelope, and its reversed interval is refused. */
  lemma SteppedBackEnvelopeIsRefused(x: Exchange, c: Checks)
    requires Genuine(x)
    ensures x.offset.lo > x.offset.hi <==> x.after.unix < x.before.unix
    ensures x.after.unix < x.before.unix ==> OffsetEnvelopeLimit in Issues(x, c)
  {
    if x.after.unix < x.before.unix {
      var head := if x.roundTrip.hi > c.maxRoundTrip then [RoundTripLimit] else [];
      assert Issues(x, c)[|head|] == OffsetEnvelopeLimit;
    }
  }

  /** The stamp comparison passes exactly when it passes wherever the wall reads fell in their brackets. */
  lemma DisagreementOverPlacements(first: Stamp, last: Stamp, mapping: int)
    requires ValidStamp(first) && ValidStamp(last)
    ensures Disagreement(first, last) <= mapping <==>
            forall s, t :: Placed(first, s) && Placed(last, t) ==> Abs((last.unix - first.unix) - (t - s)) <= mapping
  {
    var delta := last.unix - first.unix;
    assert Placed(first, first.monoAfter) && Placed(last, last.monoBefore);
    assert Placed(first, first.monoBefore) && Placed(last, last.monoAfter);
    if forall s, t :: Placed(first, s) && Placed(last, t) ==> Abs(delta - (t - s)) <= mapping {
      assert Abs(delta - (last.monoBefore - first.monoAfter)) <= mapping;
      assert Abs(delta - (last.monoAfter - first.monoBefore)) <= mapping;
    }
  }

  // ---- What a genuine exchange and its issues say ----

  /** The placements of the two coordinator reads, and how long the exchange then took. */
  ghost predicate Lasted(x: Exchange, time: int) {
    exists sent, received :: Placed(x.before, sent) && Placed(x.after, received) && time == received - sent
  }

  /** The derived intervals hold exactly what some placement of the reads gives. */
  lemma IntervalsAreExact(x: Exchange, time: int)
    requires Genuine(x)
    ensures x.roundTrip.lo <= time <= x.roundTrip.hi <==> Lasted(x, time)
    ensures x.wallChange.lo <= time <= x.wallChange.hi <==> Lasted(x, x.after.unix - x.before.unix - time)
    ensures x.offset.lo <= time <= x.offset.hi <==> x.before.unix <= x.node.unix - time <= x.after.unix
  {
    EveryLength(x, time);
    EveryLength(x, x.after.unix - x.before.unix - time);
  }

  lemma EveryLength(x: Exchange, time: int)
    requires ValidStamp(x.before) && ValidStamp(x.after)
    ensures Lasted(x, time) <==>
            x.after.monoBefore - x.before.monoAfter <= time <= x.after.monoAfter - x.before.monoBefore
  {
    if x.after.monoBefore - x.before.monoAfter <= time <= x.after.monoAfter - x.before.monoBefore {
      var sent := if x.after.monoAfter - time <= x.before.monoAfter then x.after.monoAfter - time
        else x.before.monoAfter;
      assert Placed(x.before, sent) && Placed(x.after, sent + time);
    }
  }

  /** Each issue is reported exactly when some placement breaks its own limit, and once. */
  lemma ClockIssueReportedIff(x: Exchange, c: Checks)
    requires Genuine(x)
    ensures RoundTripLimit in Issues(x, c) <==> exists time :: Lasted(x, time) && time > c.maxRoundTrip
    ensures OffsetEnvelopeLimit in Issues(x, c) <==> !(0 <= x.after.unix - x.before.unix <= c.maxOffsetWidth)
    ensures CoordinatorWallChange in Issues(x, c) <==>
      exists time :: Lasted(x, time) && Abs(x.after.unix - x.before.unix - time) > c.maxWallChange
    ensures Distinct(Issues(x, c))
  {
    var shortest, longest := x.after.monoBefore - x.before.monoAfter, x.after.monoAfter - x.before.monoBefore;
    forall time ensures Lasted(x, time) <==> shortest <= time <= longest { EveryLength(x, time); }
    assert Lasted(x, shortest) && Lasted(x, longest);
    hide Lasted;
    IssuesAre(x, c);
  }

  lemma IssuesAre(x: Exchange, c: Checks)
    ensures RoundTripLimit in Issues(x, c) <==> x.roundTrip.hi > c.maxRoundTrip
    ensures OffsetEnvelopeLimit in Issues(x, c) <==>
      x.offset.lo > x.offset.hi || x.offset.hi - x.offset.lo > c.maxOffsetWidth
    ensures CoordinatorWallChange in Issues(x, c) <==>
      Max(Abs(x.wallChange.lo), Abs(x.wallChange.hi)) > c.maxWallChange
    ensures Distinct(Issues(x, c))
  {
  }

  /** Genuine exchanges are the raw readings of one run, read in order, under a 128-bit nonce. */
  lemma GenuineIff(x: Exchange)
    ensures Genuine(x) <==>
      && x.runId.WellFormed? && 0 <= x.nonce < 0x1_0000_0000_0000_0000_0000_0000_0000_0000
      && (forall s :: s in {x.before, x.after, x.node} ==>
            0 <= s.monoBefore <= s.monoAfter < 0x8000_0000_0000_0000 && 0 <= s.unix < 0x8000_0000_0000_0000)
      && x.before.monoAfter <= x.after.monoBefore
      && x.roundTrip == Interval(x.after.monoBefore - x.before.monoAfter, x.after.monoAfter - x.before.monoBefore)
      && x.wallChange == Interval(x.after.unix - x.before.unix - x.roundTrip.hi,
                                  x.after.unix - x.before.unix - x.roundTrip.lo)
      && x.offset == Interval(x.node.unix - x.after.unix, x.node.unix - x.before.unix)
  {
    var all := {x.before, x.after, x.node};
    assert x.before in all && x.after in all && x.node in all;
  }

  /** A receipt becomes an exchange exactly when it answers this run's nonce in the known form. */
  lemma EvidenceIff(before: Stamp, after: Stamp, remote: Receipt, runId: Identifier, nonce: int)
    ensures Evidence(before, after, remote, runId, nonce).Some? <==>
      && remote.version == 1 && remote.kind == "pi-clock-receipt" && remote.runId == runId && remote.nonce == nonce
      && Genuine(Derive(before, after, remote.stamp, runId, nonce))
    ensures var found := Evidence(before, after, remote, runId, nonce);
      found.Some? ==> Genuine(found.value) && found.value.before == before && found.value.after == after
                      && found.value.node == remote.stamp && found.value.nonce == nonce && found.value.runId == runId
  {
  }
}
