/**
 What an accepted load report and an accepted receipt are (scripts/pi_lab_measurement.py:97-168,
 scripts/pi_lab_results.py:28-106), in their own numbers.
 */
module MeasurementMeaning {
  import opened Aggregates
  import C = ClockExchange
  import opened Measurement
  import E = Environment
  import S = SeriesMeaning

  ghost predicate Natural63(n: int) { 0 <= n <= 0x7FFF_FFFF_FFFF_FFFF }

  ghost predicate Signed64(n: int) { -0x8000_0000_0000_0000 <= n <= 0x7FFF_FFFF_FFFF_FFFF }

  /** A client that was timed says between which two instants of the window; one that was not has no completion. */
  ghost predicate ClientTold(c: Client) {
    && 0 <= c.timed <= 2500
    && (forall first :: c.first == Some(first) ==> Natural63(first))
    && (c.timed == 0 ==> c.last == None)
    && (c.timed > 0 ==>
          exists first, last :: c.first == Some(first) && c.last == Some(last) && first <= last <= 10_000_000_000)
  }

  ghost predicate AskedLate(c: Client) { c.timed == 0 && c.first != None }

  /** Clients that asked only after the window. */
  ghost function Tails(activity: seq<Client>): set<int> {
    set i | 0 <= i < |activity| && AskedLate(activity[i])
  }

  /** Quantiles are there exactly if something completed, and are finite and not negative. */
  ghost predicate QuantilesTold(l: Latency, completed: int) {
    && l.requests == completed
    && (completed == 0 <==> l.median == Null) && (completed == 0 <==> l.p95 == Null)
    && (completed != 0 ==> exists m, p :: l.median == Finite(m) && l.p95 == Finite(p) && m >= 0.0 && p >= 0.0)
  }

  ghost predicate MarkTold(m: Mark) {
    m.unix >= 0 && m.readBracket >= 0 && m.unix + m.readBracket <= 0x7FFF_FFFF_FFFF_FFFF
  }

  /** Five thousand arrivals, each completed, skipped or in the tail, and told apart by two clients. */
  ghost predicate LoadTold(l: Load, workers: int, role: int) {
    && l.version == 5 && l.seconds == 10 && l.workers == workers && l.role == role
    && l.timing.window == 10_000_000_000 && 10_000_000_000 <= l.timing.endMarkerElapsed <= 0x7FFF_FFFF_FFFF_FFFF
    && MarkTold(l.timing.start) && MarkTold(l.timing.endMarker)
    && l.skipped >= 0 && l.tail >= 0 && l.scheduled == 5000
    && 5000 - l.skipped - l.tail == l.latency.requests
    && |l.activity| == 2 && l.activity[0].index == 0 && l.activity[1].index == 1
    && ClientTold(l.activity[0]) && ClientTold(l.activity[1])
    && l.activity[0].timed + l.activity[1].timed == l.latency.requests
    && |Tails(l.activity)| <= l.tail
    && QuantilesTold(l.latency, l.latency.requests) && QuantilesTold(l.scheduledLatency, l.latency.requests)
    && QuantilesTold(l.schedulingDelay, l.latency.requests)
  }

  lemma ClientIff(c: Client, index: int)
    ensures ValidClient(c, index) <==> c.index == index && ClientTold(c)
  {
  }

  lemma LatencyIff(l: Latency, completed: int)
    ensures ValidLatency(l, completed) <==> QuantilesTold(l, completed)
  {
  }

  lemma TailsCount(activity: seq<Client>)
    requires |activity| == 2
    ensures |Tails(activity)| == TailOnly(activity[0]) + TailOnly(activity[1])
  {
    assert Tails(activity) == (if AskedLate(activity[0]) then {0} else {})
                              + (if AskedLate(activity[1]) then {1} else {});
  }

  lemma LoadIff(l: Load, workers: int, role: int)
    ensures ValidLoad(l, workers, role) <==> LoadTold(l, workers, role)
  {
    if |l.activity| == 2 {
      ClientIff(l.activity[0], 0);
      ClientIff(l.activity[1], 1);
      TailsCount(l.activity);
    }
    LatencyIff(l.latency, l.latency.requests);
    LatencyIff(l.scheduledLatency, l.latency.requests);
    LatencyIff(l.schedulingDelay, l.latency.requests);
    hide ValidClient, ClientTold, TailOnly, Tails, ValidLatency, QuantilesTold;
  }

  // ---- The receipt ----

  ghost predicate ResourceTold(r: Resource) {
    && Natural63(r.cpu) && 0 < r.bracket <= 0x7FFF_FFFF_FFFF_FFFF && Natural63(r.swapPeak)
    && Natural63(r.setupHwm) && Natural63(r.lifetimeHwm) && 0 < r.rssPeak <= r.lifetimeHwm
      && r.setupHwm <= r.lifetimeHwm
    && exists seconds :: r.seconds == Finite(seconds) && seconds * 1_000_000_000.0 == r.cpu as real
  }

  /** Exactly the issues there are reasons for, each once, in this order. */
  ghost predicate Lists(issues: seq<Issue>, slow: bool, capped: bool, missed: bool) {
    && |issues| <= 3 && Distinct(issues)
    && (OfferedRateNotSustained in issues <==> slow) && (SampleCap in issues <==> capped)
    && (ResourceSamplingMissed in issues <==> missed)
    && (forall i, j :: 0 <= i < j < |issues| ==>
          issues[i] != ResourceSamplingMissed && issues[j] != OfferedRateNotSustained)
  }

  ghost predicate IssuesTold(r: Receipt) {
    Lists(r.issues, r.load.latency.requests < 4950, r.load.capped, r.missed > 0)
  }

  /** The wall clock's change over the window and before it make up the differences to the monotonic clock. */
  ghost predicate ClocksTold(r: Receipt) {
    && Natural63(r.scheduledStart) && Natural63(r.start) && Natural63(r.end) && Natural63(r.lateness)
    && Signed64(r.mappingChange) && Signed64(r.wallChange)
    && 10_000_000_000 <= r.control <= 0x7FFF_FFFF_FFFF_FFFF
    && r.load.timing.endMarkerElapsed <= r.control
    && r.start + r.control + r.wallChange == r.end
    && r.scheduledStart + r.lateness + r.mappingChange == r.start
  }

  ghost predicate ConfigTold(c: Config) {
    && c.version == 2 && (c.workers == 3 || c.workers == 4 || c.workers == 5) && 0 <= c.role < c.workers
    && c.target.formation != C.Malformed && c.target.node != C.Malformed && c.target.socket != Unacceptable
  }

  ghost predicate ReceiptTold(r: Receipt, c: Config) {
    && ConfigTold(c) && r.target == c.target && LoadTold(r.load, c.workers, c.role) && ClocksTold(r)
    && 1 <= r.samples <= 200 && Natural63(r.missed) && IssuesTold(r)
    && S.GenuineSeries(r.environment, c.target.socket.run, r.environment.interface, r.control)
    && |r.resources| == 3 && ResourceTold(r.resources[0]) && ResourceTold(r.resources[1])
      && ResourceTold(r.resources[2])
  }

  lemma ResourceIff(r: Resource)
    ensures ResourceAccepted(r) <==> ResourceTold(r)
  {
    var seconds := Seconds(r.cpu);
    assert seconds * 1_000_000_000.0 == r.cpu as real;
  }

  lemma ListIs(s: seq<Issue>, slow: bool, capped: bool, missed: bool)
    requires Lists(s, slow, capped, missed)
    ensures s == (if slow then [OfferedRateNotSustained] else []) + (if capped then [SampleCap] else [])
                 + (if missed then [ResourceSamplingMissed] else [])
  {
    assert |s| > 0 ==> s[0] in s;
    assert |s| > 1 ==> s[1] in s;
    assert |s| > 2 ==> s[2] in s;
    if slow { FirstIs(s, slow, capped, missed); }
    if missed { LastIs(s, slow, capped, missed); }
    if capped {
      var i :| 0 <= i < |s| && s[i] == SampleCap;
    }
    assert |s| > 1 ==> s[0] != s[1];
    assert |s| > 2 ==> s[1] != s[2];
  }

  lemma FirstIs(s: seq<Issue>, slow: bool, capped: bool, missed: bool)
    requires Lists(s, slow, capped, missed) && slow
    ensures |s| > 0 && s[0] == OfferedRateNotSustained
  {
    var i :| 0 <= i < |s| && s[i] == OfferedRateNotSustained;
  }

  lemma LastIs(s: seq<Issue>, slow: bool, capped: bool, missed: bool)
    requires Lists(s, slow, capped, missed) && missed
    ensures |s| > 0 && s[|s| - 1] == ResourceSamplingMissed
  {
    var i :| 0 <= i < |s| && s[i] == ResourceSamplingMissed;
  }

  lemma ListLists(slow: bool, capped: bool, missed: bool)
    ensures Lists((if slow then [OfferedRateNotSustained] else []) + (if capped then [SampleCap] else [])
                  + (if missed then [ResourceSamplingMissed] else []), slow, capped, missed)
  {
  }

  lemma IssuesIff(r: Receipt)
    requires r.missed >= 0
    ensures r.issues == UnmetGates(r.load) + (if r.missed != 0 then [ResourceSamplingMissed] else []) <==> IssuesTold(r)
  {
    var slow, capped, missed := r.load.latency.requests < 4950, r.load.capped, r.missed > 0;
    ListLists(slow, capped, missed);
    hide Lists;
    if IssuesTold(r) { ListIs(r.issues, slow, capped, missed); }
  }

  lemma ClocksIff(r: Receipt)
    ensures InRange(r) && WINDOW <= r.control && r.end - r.start == r.control + r.wallChange
            && r.start - r.scheduledStart == r.lateness + r.mappingChange
            && r.load.timing.endMarkerElapsed <= r.control && 0 < r.samples <= MAX_SAMPLES <==>
            ClocksTold(r) && 1 <= r.samples <= 200 && Natural63(r.missed)
  {
  }

  lemma ReceiptIff(r: Receipt, c: Config)
    ensures Reviewed(r, c) <==> ReceiptTold(r, c)
  {
    LoadIff(r.load, c.workers, c.role);
    ClocksIff(r);
    if r.missed >= 0 { IssuesIff(r); }
    if |r.resources| == 3 {
      ResourceIff(r.resources[0]);
      ResourceIff(r.resources[1]);
      ResourceIff(r.resources[2]);
    }
    if c.target.socket.Private? {
      S.SeriesIff(r.environment, c.target.socket.run, r.environment.interface, r.control);
    }
    hide ValidLoad, LoadTold, UnmetGates, IssuesTold, ResourceAccepted, ResourceTold, E.SeriesAccepted;
    hide S.GenuineSeries;
  }

  /** A rate is the processor time, in hundredths, that one unit of the bracket saw. */
  ghost predicate RateTold(rate: real, r: Resource) { rate * r.bracket as real == 100.0 * r.cpu as real }

  ghost predicate ProbeTold(p: ProbeClock, t: Timing) {
    && p.start.lo == t.start.unix && p.start.hi - p.start.lo == t.start.readBracket
    && p.endMarker.lo == t.endMarker.unix && p.endMarker.hi - p.endMarker.lo == t.endMarker.readBracket
    && p.endMarkerElapsed == t.endMarkerElapsed
    && p.wallChange.lo + p.start.hi + t.endMarkerElapsed == p.endMarker.lo
    && p.wallChange.hi + p.start.lo + t.endMarkerElapsed == p.endMarker.hi
  }

  ghost predicate CheckedTold(c: Checked, r: Receipt) {
    && ProbeTold(c.probe, r.load.timing) && c.start == r.start && c.end == r.end && c.activity == r.load.activity
    && c.issues == r.issues && IssuesTold(r)
    && |c.rates| == |r.resources| == 3
    && RateTold(c.rates[0], r.resources[0]) && RateTold(c.rates[1], r.resources[1])
    && RateTold(c.rates[2], r.resources[2])
    && S.ReviewMeans(c.environment, r.environment)
  }

  /** What the reader of an accepted receipt hands on. */
  lemma CheckedIsExact(c: Checked, r: Receipt, config: Config)
    requires Reviewed(r, config) && IsChecked(c, r)
    ensures CheckedTold(c, r)
  {
    AcceptedParts(r, config);
    CheckedParts(c, r);
    hide *;
    S.ReviewIsExact(c.environment, r.environment, config.target.socket.run, r.environment.interface, r.control);
    CheckedAll(c, r);
  }

  lemma CheckedParts(c: Checked, r: Receipt)
    requires |r.resources| == 3 && (forall i :: 0 <= i < 3 ==> r.resources[i].bracket > 0) && IsChecked(c, r)
    ensures ProbeTold(c.probe, r.load.timing) && E.IsReview(c.environment, r.environment)
    ensures c.start == r.start && c.end == r.end && c.activity == r.load.activity && c.issues == r.issues
    ensures |c.rates| == 3
            && RateTold(c.rates[0], r.resources[0]) && RateTold(c.rates[1], r.resources[1])
            && RateTold(c.rates[2], r.resources[2])
  {
    RateIs(r.resources[0]);
    RateIs(r.resources[1]);
    RateIs(r.resources[2]);
    hide Rate, RateTold, E.IsReview;
  }

  lemma CheckedAll(c: Checked, r: Receipt)
    requires ProbeTold(c.probe, r.load.timing) && S.ReviewMeans(c.environment, r.environment) && IssuesTold(r)
    requires c.start == r.start && c.end == r.end && c.activity == r.load.activity && c.issues == r.issues
    requires |c.rates| == |r.resources| == 3
             && RateTold(c.rates[0], r.resources[0]) && RateTold(c.rates[1], r.resources[1])
             && RateTold(c.rates[2], r.resources[2])
    ensures CheckedTold(c, r)
  {
    hide ProbeTold, S.ReviewMeans, IssuesTold, RateTold;
  }

  lemma AcceptedParts(r: Receipt, c: Config)
    requires Reviewed(r, c)
    ensures IssuesTold(r) && c.target.socket.Private?
    ensures |r.resources| == 3 && forall i :: 0 <= i < 3 ==> r.resources[i].bracket > 0
    ensures E.SeriesAccepted(r.environment, c.target.socket.run, r.environment.interface, r.control)
  {
    IssuesIff(r);
    hide ValidLoad, UnmetGates, MemoryAccepted, E.SeriesAccepted;
  }

  lemma RateIs(r: Resource)
    requires r.bracket > 0
    ensures RateTold(Rate(r), r)
  {
  }
}
