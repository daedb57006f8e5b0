/**
 One node's timed measurement (scripts/pi_lab_measurement.py) and the reader that
 re-checks its receipt (scripts/pi_lab_results.py, review).
 */
module Measurement {
  import opened Aggregates
  import opened ClockExchange
  import opened HostClock
  import E = Environment

  const WINDOW := 10_000_000_000
  const PERIOD := 50_000_000
  const MAX_SAMPLES := 200

  // ---- The probe's own clock marks ----

  /** A wall read and how long the bracketing monotonic reads were apart; the mark's instant is the later of them. */
  datatype Mark = Mark(unix: int, readBracket: int)

  datatype Timing = Timing(window: int, start: Mark, endMarker: Mark, endMarkerElapsed: int)

  datatype ProbeClock = ProbeClock(start: Interval, endMarker: Interval, wallChange: Interval, endMarkerElapsed: int)

  predicate ValidMark(m: Mark) { Bounded(m.unix) && Bounded(m.readBracket) && m.unix + m.readBracket < INT63 }

  predicate ValidTiming(t: Timing) {
    t.window == WINDOW && WINDOW <= t.endMarkerElapsed < INT63 && ValidMark(t.start) && ValidMark(t.endMarker)
  }

  function MarkInterval(m: Mark): Interval { Interval(m.unix, m.unix + m.readBracket) }

  function ProbeClockBounds(t: Timing): ProbeClock {
    var start, end, elapsed := MarkInterval(t.start), MarkInterval(t.endMarker), t.endMarkerElapsed;
    ProbeClock(start, end, Interval(end.lo - start.hi - elapsed, end.hi - start.lo - elapsed), elapsed)
  }

  /** The wall-change interval is exactly what the two marks can mean: it holds every placement and its ends occur. */
  lemma WallChangeIsTight(t: Timing, limit: int)
    requires ValidTiming(t)
    ensures var change := ProbeClockBounds(t).wallChange;
            Max(Abs(change.lo), Abs(change.hi)) <= limit <==>
            forall first, last :: InMark(t.start, first) && InMark(t.endMarker, last) ==>
              Abs(last - first - t.endMarkerElapsed) <= limit
  {
    var change := ProbeClockBounds(t).wallChange;
    var start, end := MarkInterval(t.start), MarkInterval(t.endMarker);
    assert InMark(t.start, start.lo) && InMark(t.start, start.hi) && InMark(t.endMarker, end.lo)
      && InMark(t.endMarker, end.hi);
    if forall first, last :: InMark(t.start, first) && InMark(t.endMarker, last) ==>
      Abs(last - first - t.endMarkerElapsed) <= limit {
      assert Abs(end.lo - start.hi - t.endMarkerElapsed) <= limit
        && Abs(end.hi - start.lo - t.endMarkerElapsed) <= limit;
    }
  }

  ghost predicate InMark(m: Mark, wall: int) { m.unix <= wall <= m.unix + m.readBracket }

  // ---- The load report ----

  datatype Client = Client(index: int, timed: int, first: Option<int>, last: Option<int>)

  /** A number read from JSON; reals stand for its finite floats. */
  datatype Number = Null | Finite(value: real) | NotFinite | NotANumber

  datatype Latency = Latency(requests: int, median: Number, p95: Number)

  datatype Load = Load(
    version: int, workers: int, seconds: int, role: int, scheduled: int, latency: Latency, skipped: int, tail: int,
    capped: bool, scheduledLatency: Latency, schedulingDelay: Latency, activity: seq<Client>, timing: Timing)
  {
    function Completed(): int { latency.requests }
  }

  datatype Issue = OfferedRateNotSustained | SampleCap | ResourceSamplingMissed

  predicate ValidClient(c: Client, index: int) {
    && c.index == index && 0 <= c.timed <= 2500
    && (c.first.Some? ==> Bounded(c.first.value))
    && if c.timed != 0 then c.first.Some? && c.last.Some? && c.first.value <= c.last.value <= WINDOW else c.last.None?
  }

  /** The client asked only after the window: a request, but none timed. */
  function TailOnly(c: Client): int { if c.timed == 0 && c.first.Some? then 1 else 0 }

  /** Quantiles exist exactly when something completed, and are then finite and not negative. */
  predicate ValidQuantile(n: Number, completed: int) {
    if completed == 0 then n.Null? else n.Finite? && n.value >= 0.0
  }

  predicate ValidLatency(l: Latency, completed: int) {
    l.requests == completed && ValidQuantile(l.median, completed) && ValidQuantile(l.p95, completed)
  }

  predicate ValidLoad(l: Load, workers: int, role: int) {
    && l.version == 5 && l.workers == workers && l.seconds == 10 && ValidTiming(l.timing) && l.role == role
    && 0 <= l.Completed() && 0 <= l.skipped && 0 <= l.tail
    && l.scheduled == 5000 && l.Completed() + l.skipped + l.tail == l.scheduled
    && |l.activity| == 2 && ValidClient(l.activity[0], 0) && ValidClient(l.activity[1], 1)
    && l.activity[0].timed + l.activity[1].timed == l.Completed()
    && TailOnly(l.activity[0]) + TailOnly(l.activity[1]) <= l.tail
    && ValidLatency(l.latency, l.Completed()) && ValidLatency(l.scheduledLatency, l.Completed())
    && ValidLatency(l.schedulingDelay, l.Completed())
  }

  function UnmetGates(l: Load): seq<Issue> {
    (if l.Completed() < 4950 then [OfferedRateNotSustained] else []) + (if l.capped then [SampleCap] else [])
  }

  method LoadIssues(report: Load, workers: int, role: int) returns (issues: Option<seq<Issue>>)
    ensures issues.Some? <==> ValidLoad(report, workers, role)
    ensures issues.Some? ==> issues.value == UnmetGates(report)
    ensures issues.Some? ==> (OfferedRateNotSustained in issues.value <==> report.latency.requests < 4950)
    ensures issues.Some? ==> (SampleCap in issues.value <==> report.capped)
    ensures issues.Some? ==> ResourceSamplingMissed !in issues.value && |issues.value| <= 2
    ensures issues.Some? && |issues.value| == 2 ==> issues.value == [OfferedRateNotSustained, SampleCap]
  {
    if report.version != 5 || report.workers != workers || report.seconds != 10 { return None; }
    if !ValidTiming(report.timing) || report.role != role { return None; }
    var completed := report.latency.requests;
    if completed < 0 || report.skipped < 0 || report.tail < 0 { return None; }
    if report.scheduled != 5000 || completed + report.skipped + report.tail != report.scheduled { return None; }
    var activity := report.activity;
    if |activity| != 2 { return None; }
    var timed, tailOnly := 0, 0;
    for index := 0 to 2
      invariant forall i :: 0 <= i < index ==> ValidClient(activity[i], i)
      invariant index == 0 ==> timed == tailOnly == 0
      invariant index == 1 ==> timed == activity[0].timed && tailOnly == TailOnly(activity[0])
      invariant index == 2 ==> timed == activity[0].timed + activity[1].timed
                               && tailOnly == TailOnly(activity[0]) + TailOnly(activity[1])
    {
      var client := activity[index];
      if client.index != index || !(0 <= client.timed <= 2500) { return None; }
      if client.first.Some? && !Bounded(client.first.value) { return None; }
      if client.timed != 0 {
        if client.first.None? || client.last.None?
          || !(client.first.value <= client.last.value <= WINDOW) { return None; }
      } else {
        if client.last.Some? { return None; }
        if client.first.Some? { tailOnly := tailOnly + 1; }
      }
      timed := timed + client.timed;
    }
    if timed != completed || tailOnly > report.tail { return None; }
    if report.scheduledLatency.requests != completed || report.schedulingDelay.requests != completed { return None; }
    var latencies := [report.latency, report.scheduledLatency, report.schedulingDelay];
    for i := 0 to 3
      invariant forall k :: 0 <= k < i ==> ValidLatency(latencies[k], completed)
    {
      if !ValidQuantile(latencies[i].median, completed) || !ValidQuantile(latencies[i].p95, completed) { return None; }
    }
    assert ValidLatency(latencies[0], completed) && ValidLatency(latencies[1], completed)
      && ValidLatency(latencies[2], completed);
    var unmet := [];
    if completed < 4950 { unmet := unmet + [OfferedRateNotSustained]; }
    if report.capped { unmet := unmet + [SampleCap]; }
    issues := Some(unmet);
  }

  // ---- Resource accounting ----

  datatype Usage = Usage(cpu: int, observed: int, rss: int, hwm: int, swap: int)

  function Seconds(ns: int): real { ns as real / 1000000000.0 }

  datatype Resource = Resource(cpu: int, seconds: Number, bracket: int, rssPeak: int, swapPeak: int, setupHwm: int,
                               lifetimeHwm: int)

  function ResourceDelta(before: Usage, after: Usage, peak: int, swap: int): Option<Resource> {
    if after.cpu < before.cpu then None
    else Some(Resource(after.cpu - before.cpu, Finite(Seconds(after.cpu - before.cpu)),
                       after.observed - before.observed,
                       Max(peak, after.rss), Max(swap, after.swap), before.hwm, after.hwm))
  }

  predicate ResourceAccepted(r: Resource) {
    MemoryAccepted(r) && Bounded(r.cpu) && Bounded(r.bracket) && r.seconds == Finite(Seconds(r.cpu)) && 0 < r.bracket
  }

  predicate MemoryAccepted(r: Resource) {
    && Bounded(r.rssPeak) && Bounded(r.swapPeak) && Bounded(r.setupHwm) && Bounded(r.lifetimeHwm)
    && 0 < r.rssPeak && Max(r.setupHwm, r.rssPeak) <= r.lifetimeHwm
  }

  /** Processor use as a percentage of one core over the bracket. */
  function Rate(r: Resource): real
    requires r.bracket > 0
  {
    100.0 * r.cpu as real / r.bracket as real
  }

  // ---- Receipts and their reader ----

  /** A private Unix socket inside one run directory, or a path the reader refuses. */
  datatype Socket = Private(root: nat, run: Identifier) | Unacceptable

  datatype Target = Target(formation: Identifier, node: Identifier, socket: Socket)

  datatype Config = Config(version: int, workers: int, role: int, target: Target)

  datatype Receipt = Receipt(
    load: Load, environment: E.Series, target: Target, resources: seq<Resource>,
    scheduledStart: int, start: int, end: int, lateness: int, mappingChange: int, wallChange: int,
    control: int, samples: int, missed: int, issues: seq<Issue>)

  predicate ValidConfig(c: Config) {
    && c.version == 2 && 3 <= c.workers <= 5 && 0 <= c.role < c.workers
    && c.target.formation.WellFormed? && c.target.node.WellFormed? && c.target.socket.Private?
  }

  predicate SignedBounded(n: int) { -INT63 <= n < INT63 }

  predicate InRange(r: Receipt) {
    && Bounded(r.scheduledStart) && Bounded(r.start) && Bounded(r.end) && Bounded(r.lateness)
    && Bounded(r.control) && Bounded(r.samples) && Bounded(r.missed)
    && SignedBounded(r.mappingChange) && SignedBounded(r.wallChange)
  }

  /** The reviewer's own arithmetic: window length, sample count and both wall/monotonic identities. */
  predicate AccountingHolds(r: Receipt) {
    && WINDOW <= r.control && 0 < r.samples <= MAX_SAMPLES
    && r.end - r.start == r.control + r.wallChange
    && r.start - r.scheduledStart == r.lateness + r.mappingChange
    && r.issues == UnmetGates(r.load) + (if r.missed != 0 then [ResourceSamplingMissed] else [])
  }

  predicate Reviewed(r: Receipt, c: Config) {
    && ValidConfig(c) && r.target == c.target
    && ValidLoad(r.load, c.workers, c.role)
    && InRange(r)
    && AccountingHolds(r)
    && r.load.timing.endMarkerElapsed <= r.control
    && E.SeriesAccepted(r.environment, c.target.socket.run, r.environment.interface, r.control)
    && |r.resources| == 3 && forall i :: 0 <= i < 3 ==> ResourceAccepted(r.resources[i])
  }

  datatype Checked = Checked(probe: ProbeClock, start: int, end: int, activity: seq<Client>, issues: seq<Issue>,
                             rates: seq<real>, environment: E.Review)

  /** The review of an accepted receipt. */
  ghost predicate IsChecked(c: Checked, r: Receipt)
    requires |r.resources| == 3 && forall i :: 0 <= i < 3 ==> r.resources[i].bracket > 0
  {
    && c.probe == ProbeClockBounds(r.load.timing) && c.start == r.start && c.end == r.end
    && c.activity == r.load.activity && c.issues == r.issues
    && |c.rates| == 3 && (forall i :: 0 <= i < 3 ==> c.rates[i] == Rate(r.resources[i]))
    && E.IsReview(c.environment, r.environment)
  }

  method Review(value: Receipt, expected: Config) returns (checked: Option<Checked>)
    ensures checked.Some? <==> Reviewed(value, expected)
    ensures checked.Some? ==> IsChecked(checked.value, value)
  {
    hide ValidLoad, E.SeriesAccepted, MemoryAccepted, InRange, E.IsReview, Rate;
    if !ValidConfig(expected) || value.target != expected.target { return None; }
    var found := LoadIssues(value.load, expected.workers, expected.role);
    if found.None? || !InRange(value) { return None; }
    var issues := found.value;
    if value.control < WINDOW || !(0 < value.samples <= MAX_SAMPLES) { return None; }
    if value.load.timing.endMarkerElapsed > value.control { return None; }
    if value.end - value.start != value.control + value.wallChange { return None; }
    if value.start - value.scheduledStart != value.lateness + value.mappingChange { return None; }
    if value.missed != 0 { issues := issues + [ResourceSamplingMissed]; }
    if value.issues != issues { return None; }
    var environment := E.ReviewSeries(value.environment, expected.target.socket.run, value.environment.interface,
                                      value.control);
    if environment.None? || |value.resources| != 3 { return None; }
    var rates: seq<real> := [];
    for i := 0 to 3
      invariant |rates| == i
      invariant forall k :: 0 <= k < i ==> ResourceAccepted(value.resources[k]) && rates[k] == Rate(value.resources[k])
    {
      if !ResourceAccepted(value.resources[i]) { return None; }
      rates := rates + [Rate(value.resources[i])];
    }
    checked := Some(Checked(ProbeClockBounds(value.load.timing), value.start, value.end, value.load.activity, issues,
                            rates, environment.value));
  }

  // ---- The timed window ----

  datatype Stage = Prepare | WaitingForStart | Sampling | EndMarker | Report | Complete

  /** One pinned process; a sample can fail, and otherwise reads the clock once. */
  class Process {
    constructor () {}

    method Sample(host: Host) returns (usage: Option<Usage>)
      modifies host
      ensures old(host.mono) <= host.mono
      ensures usage.Some? ==> old(host.mono) <= usage.value.observed <= host.mono
    {
      var alive: bool, cpu: int, rss: int, hwm: int, swap: int := *, *, *, *, *;
      var observed := host.Monotonic();
      usage := if alive then Some(Usage(cpu, observed, rss, hwm, swap)) else None;
    }
  }

  /** Samples every process in order, stopping at the first that is gone. */
  method SampleAll(processes: seq<Process>, host: Host) returns (usages: Option<seq<Usage>>)
    modifies host
    ensures old(host.mono) <= host.mono
    ensures usages.Some? ==> |usages.value| == |processes|
    ensures usages.Some? ==> forall i :: 0 <= i < |processes| ==>
      old(host.mono) <= usages.value[i].observed <= host.mono
  {
    var taken: seq<Usage> := [];
    for i := 0 to |processes|
      invariant old(host.mono) <= host.mono && |taken| == i
      invariant forall k :: 0 <= k < i ==> old(host.mono) <= taken[k].observed <= host.mono
    {
      var usage := processes[i].Sample(host);
      if usage.None? { return None; }
      taken := taken + [usage.value];
    }
    usages := Some(taken);
  }

  function Raised(peaks: seq<int>, values: seq<int>): (r: seq<int>)
    requires |peaks| == |values|
    ensures |r| == |peaks| && forall i :: 0 <= i < |r| ==> r[i] == Max(peaks[i], values[i])
  {
    seq(|peaks|, i requires 0 <= i < |peaks| => Max(peaks[i], values[i]))
  }

  function Rss(usages: seq<Usage>): (r: seq<int>)
    ensures |r| == |usages| && forall i :: 0 <= i < |r| ==> r[i] == usages[i].rss
  {
    seq(|usages|, i requires 0 <= i < |usages| => usages[i].rss)
  }

  function Swap(usages: seq<Usage>): (r: seq<int>)
    ensures |r| == |usages| && forall i :: 0 <= i < |r| ==> r[i] == usages[i].swap
  {
    seq(|usages|, i requires 0 <= i < |usages| => usages[i].swap)
  }

  /** The three processes' samples, in the order they were taken. */
  ghost predicate Samplings(observed: seq<seq<Usage>>) {
    |observed| > 0 && forall k :: 0 <= k < |observed| ==> |observed[k]| == 3
  }

  ghost function Column(observed: seq<seq<Usage>>, i: nat): (r: seq<Usage>)
    requires Samplings(observed) && i < 3
    ensures |r| == |observed|
  {
    seq(|observed|, k requires 0 <= k < |observed| => observed[k][i])
  }

  ghost predicate PeaksOf(peaks: seq<int>, swaps: seq<int>, observed: seq<seq<Usage>>) {
    && Samplings(observed) && |peaks| == |swaps| == 3
    && forall i :: 0 <= i < 3 ==>
      peaks[i] == MaxOf(Rss(Column(observed, i)))
      && swaps[i] == MaxOf(Swap(Column(observed, i)))
  }

  lemma PeaksGrow(peaks: seq<int>, swaps: seq<int>, observed: seq<seq<Usage>>, current: seq<Usage>)
    requires PeaksOf(peaks, swaps, observed) && |current| == 3
    ensures PeaksOf(Raised(peaks, Rss(current)), Raised(swaps, Swap(current)), observed + [current])
  {
    forall i | 0 <= i < 3
      ensures Raised(peaks, Rss(current))[i] == MaxOf(Rss(Column(observed + [current], i)))
      ensures Raised(swaps, Swap(current))[i] == MaxOf(Swap(Column(observed + [current], i)))
    {
      ColumnGrows(observed, current, i);
      hide Column, MaxOf;
      MaxOfOneMore(Rss(Column(observed, i)), current[i].rss);
      MaxOfOneMore(Swap(Column(observed, i)), current[i].swap);
    }
  }

  lemma ColumnGrows(observed: seq<seq<Usage>>, current: seq<Usage>, i: nat)
    requires Samplings(observed) && |current| == 3 && i < 3
    ensures Samplings(observed + [current])
    ensures Rss(Column(observed + [current], i)) == Rss(Column(observed, i)) + [current[i].rss]
    ensures Swap(Column(observed + [current], i)) == Swap(Column(observed, i)) + [current[i].swap]
  {
  }

  lemma MaxOfOneMore(values: seq<int>, v: int)
    requires values != []
    ensures MaxOf(values + [v]) == Max(MaxOf(values), v)
  {
  }

  lemma FirstPeaks(before: seq<Usage>)
    requires |before| == 3
    ensures PeaksOf(Rss(before), Swap(before), [before])
  {
  }

  /** One process's accounting over its whole list of samples: ends for processor time, maxima for memory. */
  ghost predicate Summarises(r: Resource, column: seq<Usage>) {
    && |column| > 1
    && var first, last := column[0], column[|column| - 1];
    && 0 <= r.cpu == last.cpu - first.cpu && r.seconds == Finite(Seconds(r.cpu))
      && r.bracket == last.observed - first.observed
    && r.rssPeak == MaxOf(Rss(column)) && r.swapPeak == MaxOf(Swap(column))
    && r.setupHwm == first.hwm && r.lifetimeHwm == last.hwm
  }

  ghost predicate Concludes(r: Resource, before: Usage, after: Usage, column: seq<Usage>) {
    Summarises(r, column) && r.bracket == after.observed - before.observed && r.seconds == Finite(Seconds(r.cpu))
  }

  /** A column's ends, and its maxima as raised by its last sample. */
  ghost predicate Spans(peak: int, swap: int, first: Usage, last: Usage, column: seq<Usage>) {
    && |column| > 1 && column[0] == first && column[|column| - 1] == last
    && Max(peak, last.rss) == MaxOf(Rss(column)) && Max(swap, last.swap) == MaxOf(Swap(column))
  }

  lemma ColumnSpans(peaks: seq<int>, swaps: seq<int>, observed: seq<seq<Usage>>, after: seq<Usage>, i: nat)
    requires PeaksOf(peaks, swaps, observed) && |after| == 3 && i < 3
    ensures Samplings(observed) && Samplings(observed + [after])
    ensures Spans(peaks[i], swaps[i], observed[0][i], after[i], Column(observed + [after], i))
  {
    PeaksGrow(peaks, swaps, observed, after);
    hide MaxOf;
  }

  lemma ColumnsSpan(peaks: seq<int>, swaps: seq<int>, observed: seq<seq<Usage>>, after: seq<Usage>)
    returns (columns: seq<seq<Usage>>)
    requires PeaksOf(peaks, swaps, observed) && |after| == 3
    ensures Samplings(observed) && Samplings(observed + [after]) && |peaks| == |swaps| == |columns| == 3
    ensures forall i :: 0 <= i < 3 ==>
      columns[i] == Column(observed + [after], i) && Spans(peaks[i], swaps[i], observed[0][i], after[i], columns[i])
  {
    columns := seq(3, i requires 0 <= i < 3 => Column(observed + [after], i));
    hide Spans, Column;
    forall i | 0 <= i < 3 ensures Spans(peaks[i], swaps[i], observed[0][i], after[i], columns[i]) {
      ColumnSpans(peaks, swaps, observed, after, i);
    }
  }

  lemma DeltaSummarises(before: Usage, after: Usage, peak: int, swap: int, column: seq<Usage>)
    requires Spans(peak, swap, before, after, column)
    ensures var r := ResourceDelta(before, after, peak, swap);
            r.Some? ==> Concludes(r.value, before, after, column)
  {
    hide MaxOf, Rss, Swap, Seconds;
  }

  /**
   What reading the receipt back still depends on: ranges, a sample, the probe's own timing and the memory samples.
   */
  ghost predicate Remaining(r: Receipt) { Admissible(r) && r.load.timing.endMarkerElapsed <= r.control }

  ghost predicate Admissible(r: Receipt) {
    && InRange(r) && Bounded(r.environment.start) && 0 < r.samples
    && forall i :: 0 <= i < |r.resources| ==>
         MemoryAccepted(r.resources[i]) && Bounded(r.resources[i].cpu) && Bounded(r.resources[i].bracket)
  }

  /**
   The probe timed its window on this host's monotonic clock: it started after it was told to go, so after the
   window's own reading, and marked the end before that mark was read, so before the final reading.
   */
  ghost predicate ProbeTimed(r: Receipt, started: int, marked: int) {
    && r.environment.start <= started <= marked <= r.environment.start + r.control
    && r.load.timing.endMarkerElapsed == marked - started
  }

  /** What every finished run guarantees about its receipt. */
  ghost predicate Accounted(r: Receipt, c: Config, runId: Identifier, interface: Identifier) {
    && r.target == c.target && ValidLoad(r.load, c.workers, c.role)
    && WINDOW <= r.control && 0 <= r.samples <= MAX_SAMPLES && 0 <= r.missed && 0 <= r.lateness
    && r.end - r.start == r.control + r.wallChange
    && r.start - r.scheduledStart == r.lateness + r.mappingChange
    && r.issues == UnmetGates(r.load) + (if r.missed != 0 then [ResourceSamplingMissed] else [])
    && r.environment == E.Series(runId, interface, r.environment.start, E.PERIOD, E.WINDOW, r.environment.samples,
                                 E.SLOTS - |r.environment.samples|)
    && E.Produced(r.environment.samples, runId, interface, r.environment.start, r.environment.start + r.control)
    && |r.resources| == 3
    && forall i :: 0 <= i < 3 ==>
      r.resources[i].bracket >= WINDOW && r.resources[i].seconds == Finite(Seconds(r.resources[i].cpu))
  }

  /** The reader accepts a finished run's receipt exactly when what it cannot control is in order. */
  lemma AccountedReceiptIsAccepted(r: Receipt, c: Config, runId: Identifier, interface: Identifier)
    requires Accounted(r, c, runId, interface)
    requires ValidConfig(c) && c.target.socket.run == runId && runId.WellFormed? && interface.WellFormed?
    ensures Reviewed(r, c) <==> Remaining(r)
    ensures forall started, marked :: ProbeTimed(r, started, marked) ==> (Reviewed(r, c) <==> Admissible(r))
  {
    hide ValidLoad, E.Produced, MemoryAccepted, Seconds;
    if Remaining(r) {
      E.ProducedSeriesIsAccepted(r.environment.samples, runId, interface, r.environment.start,
                                 r.environment.start + r.control, r.control);
    }
  }

  /** The readings taken when the start was planned and when the window began. */
  datatype Begun = Begun(nowMono: int, nowWall: int, planned: int, mono: int, wall: int)

  /** Each process's accounting summarises all of its samples, first to last. */
  ghost predicate MemoryAndCpu(r: Receipt, observed: seq<seq<Usage>>) {
    && Samplings(observed) && |r.resources| == 3
    && forall i :: 0 <= i < 3 ==> Summarises(r.resources[i], Column(observed, i))
  }

  /** By the last check every period so far was counted once, as a sample or as missed, and none ahead of it. */
  predicate PeriodsCounted(start: int, samples: int, missed: int, lastCheck: int) {
    lastCheck <= start + 50_000_000 * (samples + missed) <= lastCheck + 50_000_000
  }

  class Measurement {
    const config: Config
    const runId: Identifier
    const interface: Identifier
    const deadline: int
    const processes: seq<Process>
    var ran: bool
    var stage: Stage
    var samples: int
    var missed: int

    constructor (config: Config, runId: Identifier, interface: Identifier, deadline: int, processes: seq<Process>)
      requires |processes| == 3
      ensures !ran && this.config == config && this.runId == runId && this.interface == interface
      ensures this.deadline == deadline && this.processes == processes
    {
      this.config, this.runId, this.interface, this.deadline, this.processes := config, runId, interface, deadline,
        processes;
      ran, stage, samples, missed := false, Prepare, 0, 0;
    }

    /** The sampling loop: slots are start + k * PERIOD, each either sampled or counted as missed. */
    method SampleWindow(host: Host, environment: E.KernelSeries, start: int, before: seq<Usage>)
      returns (ok: bool, peaks: seq<int>, swaps: seq<int>, ghost observed: seq<seq<Usage>>, ghost firstCheck: int,
               ghost lastCheck: int)
      requires |processes| == |before| == 3
      requires start <= host.mono && environment.start == start && environment.samples == []
      modifies this, host, environment
      ensures old(host.mono) <= host.mono && ran == old(ran)
      ensures ok ==> start + WINDOW <= host.mono
      ensures ok ==> PeaksOf(peaks, swaps, observed) && observed[0] == before && |observed| == samples + 1
      ensures ok ==> 0 <= samples <= MAX_SAMPLES && 0 <= missed
      ensures ok ==> (samples == 0 <==> start + WINDOW <= firstCheck) && old(host.mono) <= firstCheck
      ensures ok && samples > 0 ==>
        firstCheck <= lastCheck <= host.mono
        && PeriodsCounted(start, samples, missed, lastCheck)
      ensures ok ==> E.Produced(environment.samples, environment.runId, environment.interface, start, host.mono)
    {
      hide E.Produced, PeaksOf;
      observed := [before];
      FirstPeaks(before);
      var end := start + WINDOW;
      var nextSample := start;
      samples, missed := 0, 0;
      peaks, swaps, ok := Rss(before), Swap(before), false;
      assert E.Produced([], environment.runId, environment.interface, start,
                        host.mono) by { E.NothingProduced(environment.runId, environment.interface, start, host.mono); }
      var now := host.Monotonic();
      firstCheck, lastCheck := now, now;
      E.ProducedLater([], environment.runId, environment.interface, start, old(host.mono), now);
      while now < end
        invariant old(host.mono) <= firstCheck <= now == host.mono && ran == old(ran)
        invariant nextSample == start + PERIOD * (samples + missed) && 0 <= samples && 0 <= missed
        invariant Min(end, nextSample) <= now && samples <= MAX_SAMPLES
        invariant samples == 0 ==> now == firstCheck && missed == 0
        invariant samples > 0 ==>
          firstCheck < end && firstCheck <= lastCheck <= now
          && PeriodsCounted(start, samples, missed, lastCheck)
        invariant |peaks| == |swaps| == 3 && PeaksOf(peaks, swaps, observed)
        invariant |observed| == samples + 1 && observed[0] == before
        invariant E.Produced(environment.samples, environment.runId, environment.interface, start, now)
        decreases MAX_SAMPLES - samples
      {
        ghost var sampledAt := environment.SampleIfDue(host);
        label sampled:
        var current := SampleAll(processes, host);
        if current.None? { return; }
        PeaksGrow(peaks, swaps, observed, current.value);
        observed := observed + [current.value];
        peaks, swaps := Raised(peaks, Rss(current.value)), Raised(swaps, Swap(current.value));
        samples := samples + 1;
        nextSample := nextSample + PERIOD;
        now := host.Monotonic();
        lastCheck := now;
        if nextSample < now {
          var skipped := (now - nextSample) / PERIOD + 1;
          missed := missed + skipped;
          nextSample := nextSample + skipped * PERIOD;
        }
        var asleep := host.Monotonic();
        host.Sleep(Max(0, Min(end, nextSample) - asleep));
        now := host.Monotonic();
        E.ProducedLater(environment.samples, environment.runId, environment.interface, start, old@sampled(host.mono),
                        now);
      }
      ok := true;
    }

    /** Waits until the monotonic clock has passed the planned instant. */
    method WaitUntil(host: Host, planned: int)
      modifies host
      ensures old(host.mono) <= host.mono && planned <= host.mono
    {
      var t := host.Monotonic();
      while t < planned
        invariant old(host.mono) <= t == host.mono
        decreases planned - t
      {
        var remaining := host.Monotonic();
        host.Sleep(Min(50_000_000, Max(0, planned - remaining)));
        t := host.Monotonic();
      }
    }

    /** The probe's report line, if it arrives and decodes. */
    method ReadReport() returns (report: Option<Load>) {
      var arrived: bool, load: Load := *, *;
      report := if arrived then Some(load) else None;
    }

    method Resources(before: seq<Usage>, after: seq<Usage>, peaks: seq<int>, swaps: seq<int>,
                     ghost observed: seq<seq<Usage>>)
      returns (r: Option<seq<Resource>>)
      requires |before| == |after| == 3 && PeaksOf(peaks, swaps, observed) && observed[0] == before
      ensures r.Some? ==> |r.value| == 3 && Samplings(observed + [after])
      ensures r.Some? ==> forall i :: 0 <= i < 3 ==>
        Concludes(r.value[i], before[i], after[i], Column(observed + [after], i))
    {
      ghost var columns := ColumnsSpan(peaks, swaps, observed, after);
      hide *;
      var resources: seq<Resource> := [];
      for i := 0 to 3
        invariant |resources| == i
        invariant forall k :: 0 <= k < i ==> Concludes(resources[k], before[k], after[k], columns[k])
      {
        var resource := ResourceDelta(before[i], after[i], peaks[i], swaps[i]);
        if resource.None? { return None; }
        DeltaSummarises(before[i], after[i], peaks[i], swaps[i], columns[i]);
        resources := resources + [resource.value];
      }
      r := Some(resources);
    }

    /** Checks that the start is near enough and fixes the monotonic instant it corresponds to. */
    method Plan(startUnix: int, host: Host) returns (nowMono: int, nowWall: int, planned: int, ok: bool)
      modifies host
      ensures old(host.mono) <= nowMono <= host.mono && planned - nowMono == startUnix - nowWall
      ensures ok ==> nowMono + 2_000_000_000 <= planned <= nowMono + 20_000_000_000
      ensures ok ==> planned + 17_000_000_000 < deadline
      ensures !ok ==>
        planned < nowMono + 2_000_000_000 || planned > nowMono + 20_000_000_000
        || host.mono + (planned - nowMono) + 17_000_000_000 >= deadline
    {
      nowMono := host.Monotonic();
      nowWall := host.Wall();
      var wait := startUnix - nowWall;
      planned := nowMono + wait;
      var soon := host.Monotonic();
      ok := 2_000_000_000 <= wait <= 20_000_000_000 && soon + wait + 17_000_000_000 < deadline;
    }

    /** The end marker, the final samples and the probe's report, put together into the receipt. */
    method Conclude(startUnix: int, host: Host, begun: Begun, environment: E.KernelSeries,
                    before: seq<Usage>, peaks: seq<int>, swaps: seq<int>, ghost seen: seq<seq<Usage>>)
      returns (result: Option<Receipt>, ghost observed: seq<seq<Usage>>)
      requires |processes| == |before| == 3 && 0 <= samples <= MAX_SAMPLES && 0 <= missed
      requires begun.planned - begun.nowMono == startUnix - begun.nowWall && begun.planned <= begun.mono
      requires begun.mono + WINDOW <= host.mono
      requires environment.runId == runId && environment.interface == interface && environment.start == begun.mono
      requires E.Produced(environment.samples, runId, interface, begun.mono, host.mono)
      requires PeaksOf(peaks, swaps, seen) && seen[0] == before && |seen| == samples + 1
      requires forall i :: 0 <= i < 3 ==> before[i].observed <= begun.mono
      modifies this`stage, host
      ensures result.Some? ==> stage == Complete && Accounted(result.value, config, runId, interface)
      ensures result.Some? ==>
        result.value.scheduledStart == startUnix && result.value.samples == samples
        && result.value.missed == missed
        && result.value.environment.start == begun.mono
      ensures result.Some? ==> MemoryAndCpu(result.value, observed) && |observed| == samples + 2
    {
      hide E.Produced, ValidLoad, Summarises, PeaksOf, Seconds;
      result, observed, stage := None, [], EndMarker;
      var marked: bool := *;
      if !marked { return; }
      var after := SampleAll(processes, host);
      if after.None? { return; }
      var endedMono := host.Monotonic();
      var endedWall := host.Wall();
      E.ProducedLater(environment.samples, runId, interface, begun.mono, old(host.mono), endedMono);
      stage := Report;
      var report := ReadReport();
      if report.None? { return; }
      var gates := LoadIssues(report.value, config.workers, config.role);
      if gates.None? { return; }
      var resources := Resources(before, after.value, peaks, swaps, seen);
      if resources.None? { return; }
      observed := seen + [after.value];
      var issues := gates.value;
      if missed != 0 { issues := issues + [ResourceSamplingMissed]; }
      result := Some(Receipt.Receipt(report.value, environment.Finish(), config.target, resources.value,
                                     startUnix, begun.wall, endedWall, begun.mono - begun.planned,
                                     (begun.wall - begun.nowWall) - (begun.mono - begun.nowMono),
                                     (endedWall - begun.wall) - (endedMono - begun.mono),
                                     endedMono - begun.mono, samples, missed, issues));
      stage := Complete;
    }

    /** One measurement per object, ever. */
    method Run(startUnix: int, host: Host)
      returns (result: Option<Receipt>, ghost observed: seq<seq<Usage>>, ghost firstCheck: int, ghost lastCheck: int)
      requires |processes| == 3
      modifies this, host
      ensures old(ran) ==> result.None? && ran && host.mono == old(host.mono)
      ensures result.Some? ==> ran && stage == Complete
      ensures result.Some? ==>
        Accounted(result.value, config, runId, interface)
        && result.value.scheduledStart == startUnix
      ensures result.Some? ==> MemoryAndCpu(result.value, observed) && |observed| == result.value.samples + 2
      ensures result.Some? ==> (result.value.samples == 0 <==> result.value.environment.start + WINDOW <= firstCheck)
      ensures result.Some? && result.value.samples > 0 ==>
        PeriodsCounted(result.value.environment.start, result.value.samples, result.value.missed, lastCheck)
    {
      hide E.Produced, Accounted, MemoryAndCpu, PeaksOf;
      result, observed, firstCheck, lastCheck := None, [], 0, 0;
      if ran { return; }
      var nowMono, nowWall, planned, ok := Plan(startUnix, host);
      if !ok { return; }
      ran, stage := true, WaitingForStart;
      WaitUntil(host, planned);
      var before := SampleAll(processes, host);
      if before.None? { return; }
      var actualMono := host.Monotonic();
      var actualWall := host.Wall();
      stage := Sampling;
      var alive: bool := *;
      if !alive { return; }
      var environment := new E.KernelSeries(runId, interface, actualMono);
      var sampled, peaks, swaps, seen, first, last := SampleWindow(host, environment, actualMono, before.value);
      if !sampled { return; }
      firstCheck, lastCheck := first, last;
      result, observed := Conclude(startUnix, host, Begun(nowMono, nowWall, planned, actualMono, actualWall),
                                   environment, before.value, peaks, swaps, seen);
    }
  }
}
