/**
 Host environment evidence (scripts/pi_lab_environment.py): single snapshots,
 the comparison of two, and the sampler and reviewer of a ten-second series.
 */
module Environment {
  import opened Aggregates
  import opened ClockExchange
  import opened HostClock

  // ---- Snapshots and their comparison ----

  datatype Missing = Temperature | FirmwareThrottled

  /** Six counters: bytes received and sent, errors received and sent, drops received and sent. */
  const COUNTERS := 6
  const FIRST_FAULT := 2

  datatype Snapshot = Snapshot(
    runId: Identifier, interface: Identifier, ifindex: int, bootId: Identifier,
    monoBefore: int, monoAfter: int, network: seq<int>,
    temperature: Option<int>, throttled: Option<int>, unavailable: seq<Missing>)

  predicate Natural(n: int, maximum: int) { 0 <= n <= maximum }

  function Absent(s: Snapshot): seq<Missing> {
    (if s.temperature.None? then [Temperature] else []) + (if s.throttled.None? then [FirmwareThrottled] else [])
  }

  predicate ValidSnapshot(s: Snapshot, runId: Identifier, interface: Identifier) {
    && s.runId == runId && s.interface == interface && runId.WellFormed? && interface.WellFormed?
    && 0 < s.ifindex < 0x8000_0000 && s.bootId.WellFormed?
    && Bounded(s.monoBefore) && Bounded(s.monoAfter) && s.monoBefore <= s.monoAfter
    && |s.network| == COUNTERS
    && (forall i :: 0 <= i < COUNTERS ==> Natural(s.network[i], 0xFFFF_FFFF_FFFF_FFFF))
    && (s.temperature.Some? ==> -273150 <= s.temperature.value <= 300000)
    && (s.throttled.Some? ==> Natural(s.throttled.value, 0xFFFF_FFFF))
    && s.unavailable == Absent(s)
  }

  datatype Side = Before | After

  datatype CompareIssue =
    | BootIdentityChanged | InterfaceReplaced | BracketsNotOrdered | CounterRegressed | ErrorsOrDrops
    | Unavailable(side: Side, what: Missing) | FirmwareFlags(side: Side)

  datatype Comparison = Comparison(delta: Option<seq<int>>, issues: set<CompareIssue>)

  function Delta(x: Snapshot, y: Snapshot): (d: seq<int>)
    requires |x.network| == |y.network| == COUNTERS
    ensures |d| == COUNTERS && forall i :: 0 <= i < COUNTERS ==> d[i] == y.network[i] - x.network[i]
  {
    seq(COUNTERS, i requires 0 <= i < COUNTERS => y.network[i] - x.network[i])
  }

  function SideIssues(side: Side, s: Snapshot): set<CompareIssue> {
    (set m | m in s.unavailable :: Unavailable(side, m))
    + (if s.throttled.Some? && s.throttled.value != 0 then {FirmwareFlags(side)} else {})
  }

  function Breaks(x: Snapshot, y: Snapshot): set<CompareIssue>
    requires |x.network| == |y.network| == COUNTERS
  {
    (if x.bootId != y.bootId then {BootIdentityChanged} else {})
    + (if x.ifindex != y.ifindex then {InterfaceReplaced} else {})
    + (if y.monoBefore <= x.monoAfter then {BracketsNotOrdered} else {})
    + (if exists i :: 0 <= i < COUNTERS && y.network[i] < x.network[i] then {CounterRegressed} else {})
  }

  /** Some error or drop counter moved. */
  predicate AnyFault(delta: seq<int>)
    requires |delta| == COUNTERS
  {
    exists i :: FIRST_FAULT <= i < COUNTERS && delta[i] != 0
  }

  /** Differences are reported only across one boot, one interface, ordered brackets and counters that never fell. */
  function Compare(x: Snapshot, y: Snapshot, runId: Identifier, interface: Identifier): (r: Option<Comparison>)
  {
    if !ValidSnapshot(x, runId, interface) || !ValidSnapshot(y, runId, interface) then None
    else
      var breaks := Breaks(x, y);
      var delta := if breaks == {} then Some(Delta(x, y)) else None;
      var faults := delta.Some? && AnyFault(delta.value);
      Some(Comparison(delta, breaks + (if faults then {ErrorsOrDrops} else {}) + SideIssues(Before, x)
                      + SideIssues(After, y)))
  }

  // ---- A series of periodic snapshots ----

  const PERIOD := 1_000_000_000
  const WINDOW := 10_000_000_000
  const SLOTS := 10

  datatype ErrorType = OSError | FileNotFoundError | PermissionError | ValueError | TimeoutError | OtherError

  datatype Outcome = Took(snapshot: Snapshot) | Failed(error: ErrorType)

  datatype Row = Row(slot: int, begin: int, end: int, outcome: Outcome)

  datatype Series = Series(runId: Identifier, interface: Identifier, start: int, period: int, window: int,
                           samples: seq<Row>, missed: int)

  /** What a row must satisfy by itself. */
  predicate RowAccepted(row: Row, series: Series, control: int) {
    && Bounded(row.slot) && Bounded(row.begin) && Bounded(row.end)
    && row.slot < SLOTS
    && row.slot * PERIOD <= row.begin < (row.slot + 1) * PERIOD
    && row.begin <= row.end <= control
    && match row.outcome {
         case Failed(error) => error != OtherError
         case Took(s) =>
           && ValidSnapshot(s, series.runId, series.interface) && s.throttled.None?
           && series.start + row.begin <= s.monoBefore <= s.monoAfter <= series.start + row.end
       }
  }

  predicate RowFollows(x: Row, y: Row) { x.slot < y.slot && x.end <= y.begin }

  predicate HeaderAccepted(series: Series, runId: Identifier, interface: Identifier, control: int) {
    && series.runId == runId && series.interface == interface && runId.WellFormed? && interface.WellFormed?
    && Bounded(series.start) && Bounded(series.missed) && Bounded(control)
    && series.period == PERIOD && series.window == WINDOW
    && |series.samples| <= SLOTS && series.missed == SLOTS - |series.samples|
  }

  predicate SeriesAccepted(series: Series, runId: Identifier, interface: Identifier, control: int) {
    && HeaderAccepted(series, runId, interface, control)
    && (forall i :: 0 <= i < |series.samples| ==> RowAccepted(series.samples[i], series, control))
    && (forall i :: 0 < i < |series.samples| ==> RowFollows(series.samples[i - 1], series.samples[i]))
  }

  /** The snapshots that were taken, in order. */
  function Good(rows: seq<Row>): seq<Snapshot> {
    if rows == [] then []
    else
      var last := rows[|rows| - 1];
      Good(rows[..|rows| - 1]) + (if last.outcome.Took? then [last.outcome.snapshot] else [])
  }

  function Temperatures(good: seq<Snapshot>): seq<int> {
    if good == [] then []
    else
      var last := good[|good| - 1];
      Temperatures(good[..|good| - 1]) + (if last.temperature.Some? then [last.temperature.value] else [])
  }

  datatype SeriesIssue = SamplesMissed | CrossedWindowEnd | SampleFailed | TemperatureUnavailable
    | Compared(issue: CompareIssue)

  datatype Review = Review(
    issues: set<SeriesIssue>, missed: int, failed: int, peak: Option<int>, temperaturesComplete: bool,
    delta: Option<seq<int>>, bracket: Option<Interval>)

  function RowIssues(row: Row): set<SeriesIssue> {
    (if row.end > WINDOW then {CrossedWindowEnd} else {})
    + match row.outcome {
        case Failed(_) => {SampleFailed}
        case Took(s) => if s.temperature.None? then {TemperatureUnavailable} else {}
      }
  }

  /** Issues of one adjacent pair, but for the firmware a series never samples. */
  function PairIssues(c: Comparison): set<SeriesIssue> {
    set i | i in c.issues && !(i.Unavailable? && i.what == FirmwareThrottled) :: Compared(i)
  }

  /** The comparison of the snapshot at i with the next one. */
  function CompareAt(good: seq<Snapshot>, i: int, series: Series): Option<Comparison>
    requires 0 <= i < |good| - 1
  {
    Compare(good[i], good[i + 1], series.runId, series.interface)
  }

  ghost predicate ComparableTo(good: seq<Snapshot>, k: int, series: Series)
    requires k < |good|
  {
    forall i :: 0 <= i < k ==> CompareAt(good, i, series).Some? && CompareAt(good, i, series).value.delta.Some?
  }

  ghost function LinkIssues(good: seq<Snapshot>, i: int, series: Series): set<SeriesIssue>
    requires 0 <= i < |good| - 1
  {
    var c := CompareAt(good, i, series);
    if c.Some? then PairIssues(c.value) else {}
  }

  ghost function RowIssuesTo(rows: seq<Row>, k: int): set<SeriesIssue>
    requires k <= |rows|
  {
    set i, x | 0 <= i < k && x in RowIssues(rows[i]) :: x
  }

  ghost function LinkIssuesTo(good: seq<Snapshot>, k: int, series: Series): set<SeriesIssue>
    requires 0 <= k < |good| || k <= 0
  {
    set i, x | 0 <= i < k && x in LinkIssues(good, i, series) :: x
  }

  /** The review of an accepted series, said all at once. */
  ghost predicate IsReview(r: Review, series: Series) {
    var good := Good(series.samples);
    var temperatures := Temperatures(good);
    && r.issues == (if series.missed != 0 then {SamplesMissed} else {})
                   + RowIssuesTo(series.samples, |series.samples|) + LinkIssuesTo(good, |good| - 1, series)
    && r.missed == series.missed && r.failed == |series.samples| - |good|
    && r.peak == (if temperatures == [] then None else Some(MaxOf(temperatures)))
    && r.temperaturesComplete == (|temperatures| == SLOTS)
    && (r.delta.Some? <==> r.bracket.Some?)
    && (r.delta.Some? <==> |good| == SLOTS && ComparableTo(good, SLOTS - 1, series))
    && (r.delta.Some? ==>
          && |good[0].network| == |good[SLOTS - 1].network| == COUNTERS
          && r.delta.value == Delta(good[0], good[SLOTS - 1])
          && r.bracket.value == Interval(good[SLOTS - 1].monoBefore - good[0].monoAfter,
                                         good[SLOTS - 1].monoAfter - good[0].monoBefore))
  }

  method CheckRow(row: Row, series: Series, control: int) returns (ok: bool, found: set<SeriesIssue>)
    ensures ok <==> RowAccepted(row, series, control)
    ensures ok ==> found == RowIssues(row)
  {
    ok, found := false, {};
    if !(Bounded(row.slot) && Bounded(row.begin) && Bounded(row.end)) { return; }
    if !(row.slot < SLOTS && row.slot * PERIOD <= row.begin < (row.slot + 1) * PERIOD
         && row.begin <= row.end <= control) {
      return;
    }
    if row.end > WINDOW { found := found + {CrossedWindowEnd}; }
    match row.outcome {
      case Failed(error) =>
        found := found + {SampleFailed};
        ok := error != OtherError;
      case Took(s) =>
        if s.temperature.None? { found := found + {TemperatureUnavailable}; }
        ok := ValidSnapshot(s, series.runId, series.interface) && s.throttled == None
              && series.start + row.begin <= s.monoBefore <= s.monoAfter <= series.start + row.end;
    }
  }

  method ScanRows(series: Series, control: int) returns (ok: bool, good: seq<Snapshot>, issues: set<SeriesIssue>)
    ensures ok <==> (forall i :: 0 <= i < |series.samples| ==> RowAccepted(series.samples[i], series, control))
                    && (forall i :: 0 < i < |series.samples| ==> RowFollows(series.samples[i - 1], series.samples[i]))
    ensures ok ==> good == Good(series.samples) && issues == RowIssuesTo(series.samples, |series.samples|)
  {
    hide RowAccepted, RowIssues, RowIssuesTo;
    var rows := series.samples;
    var previousSlot, previousEnd := -1, -1;
    ok, good, issues := false, [], {};
    assert rows[..|rows|] == rows;
    assert RowIssuesTo(rows, 0) == {} by { NoRowIssues(rows); }
    for k := 0 to |rows|
      invariant forall i :: 0 <= i < k ==> RowAccepted(rows[i], series, control)
      invariant forall i :: 0 < i < k ==> RowFollows(rows[i - 1], rows[i])
      invariant k == 0 ==> previousSlot == previousEnd == -1
      invariant k > 0 ==> previousSlot == rows[k - 1].slot && previousEnd == rows[k - 1].end
      invariant good == Good(rows[..k])
      invariant issues == RowIssuesTo(rows, k)
    {
      var row := rows[k];
      var accepted, found := CheckRow(row, series, control);
      if !accepted { return; }
      if !(previousSlot < row.slot && previousEnd <= row.begin) {
        AcceptedIsNatural(row, series, control);
        assert k > 0 && !RowFollows(rows[k - 1], rows[k]);
        return;
      }
      previousSlot, previousEnd := row.slot, row.end;
      issues := issues + found;
      RowIssuesGrow(rows, k, issues);
      assert rows[..k + 1][..k] == rows[..k];
      if row.outcome.Took? { good := good + [row.outcome.snapshot]; }
    }
    ok := true;
  }

  lemma NoRowIssues(rows: seq<Row>)
    ensures RowIssuesTo(rows, 0) == {}
  {
  }

  lemma AcceptedIsNatural(row: Row, series: Series, control: int)
    requires RowAccepted(row, series, control)
    ensures 0 <= row.slot && 0 <= row.begin
  {
  }

  lemma RowIssuesGrow(rows: seq<Row>, k: int, issues: set<SeriesIssue>)
    requires 0 <= k < |rows| && issues == RowIssuesTo(rows, k) + RowIssues(rows[k])
    ensures issues == RowIssuesTo(rows, k + 1)
  {
  }

  lemma LinkIssuesGrow(good: seq<Snapshot>, k: int, series: Series, issues: set<SeriesIssue>)
    requires 0 <= k < |good| - 1 && issues == LinkIssuesTo(good, k, series) + LinkIssues(good, k, series)
    ensures issues == LinkIssuesTo(good, k + 1, series)
  {
  }

  method ScanPairs(good: seq<Snapshot>, series: Series) returns (comparable: bool, issues: set<SeriesIssue>)
    ensures comparable <==> |good| == SLOTS && ComparableTo(good, SLOTS - 1, series)
    ensures issues == LinkIssuesTo(good, |good| - 1, series)
  {
    hide CompareAt;
    comparable, issues := |good| == SLOTS, {};
    var pairs := if good == [] then 0 else |good| - 1;
    for k := 0 to pairs
      invariant comparable <==> |good| == SLOTS && ComparableTo(good, k, series)
      invariant issues == LinkIssuesTo(good, k, series)
    {
      var compared := CompareAt(good, k, series);
      if compared.Some? { issues := issues + PairIssues(compared.value); }
      LinkIssuesGrow(good, k, series, issues);
      comparable := comparable && compared.Some? && compared.value.delta.Some?;
    }
  }

  method ReviewSeries(series: Series, runId: Identifier, interface: Identifier, control: int)
    returns (review: Option<Review>)
    ensures review.Some? <==> SeriesAccepted(series, runId, interface, control)
    ensures review.Some? ==> IsReview(review.value, series)
  {
    hide RowAccepted, CompareAt, LinkIssuesTo, RowIssuesTo;
    if !HeaderAccepted(series, runId, interface, control) { return None; }
    var ok, good, issues := ScanRows(series, control);
    if !ok { return None; }
    if series.missed != 0 { issues := issues + {SamplesMissed}; }
    var temperatures := Temperatures(good);
    var comparable, linked := ScanPairs(good, series);
    var delta, bracket := None, None;
    if comparable {
      var first, last := good[0], good[|good| - 1];
      EndsAreValid(good, series);
      delta := Some(Delta(first, last));
      bracket := Some(Interval(last.monoBefore - first.monoAfter, last.monoAfter - first.monoBefore));
    }
    review := Some(Review(issues + linked, series.missed, |series.samples| - |good|,
                          if temperatures == [] then None else Some(MaxOf(temperatures)),
                          |temperatures| == SLOTS, delta, bracket));
  }

  lemma EndsAreValid(good: seq<Snapshot>, series: Series)
    requires |good| == SLOTS && ComparableTo(good, SLOTS - 1, series)
    ensures |good[0].network| == |good[SLOTS - 1].network| == COUNTERS
  {
    assert CompareAt(good, 0, series).Some? && CompareAt(good, SLOTS - 2, series).Some?;
  }

  // ---- What a reported network delta means ----

  lemma {:induction false} GoodRows(rows: seq<Row>)
    ensures |Good(rows)| <= |rows|
    ensures |Good(rows)| == |rows| ==> forall i :: 0 <= i < |rows| ==> rows[i].outcome == Took(Good(rows)[i])
  {
    if rows == [] {
    } else {
      GoodRows(rows[..|rows| - 1]);
    }
  }

  lemma {:induction false} SlotsFill(rows: seq<Row>, i: nat)
    requires i < |rows| == SLOTS
    requires forall k :: 0 <= k < SLOTS ==> 0 <= rows[k].slot < SLOTS
    requires forall k :: 0 < k < SLOTS ==> rows[k - 1].slot < rows[k].slot
    ensures i <= rows[i].slot
    ensures rows[SLOTS - 1 - i].slot <= SLOTS - 1 - i
  {
    if i == 0 {
    } else {
      SlotsFill(rows, i - 1);
      assert rows[i - 1].slot < rows[i].slot;
      var j := SLOTS - 1 - i;
      assert rows[j + 1 - 1].slot < rows[j + 1].slot;
    }
  }

  /** The sum of the first k adjacent differences of one counter. */
  ghost function Climbed(good: seq<Snapshot>, counter: nat, k: nat): int
    requires counter < COUNTERS && k < |good| && forall i :: 0 <= i < |good| ==> |good[i].network| == COUNTERS
  {
    if k == 0 then 0 else Climbed(good, counter, k - 1) + (good[k].network[counter] - good[k - 1].network[counter])
  }

  lemma {:induction false} Telescopes(good: seq<Snapshot>, counter: nat, k: nat)
    requires counter < COUNTERS && k < |good| && forall i :: 0 <= i < |good| ==> |good[i].network| == COUNTERS
    ensures Climbed(good, counter, k) == good[k].network[counter] - good[0].network[counter]
  {
    if k == 0 {
    } else {
      Telescopes(good, counter, k - 1);
    }
  }

  /** Adjacent snapshots share boot and interface, have ordered brackets, and no counter falls between them. */
  ghost predicate Linked(x: Snapshot, y: Snapshot) {
    && x.bootId == y.bootId && x.ifindex == y.ifindex && x.monoAfter < y.monoBefore
    && x.monoBefore <= x.monoAfter && y.monoBefore <= y.monoAfter
    && |x.network| == |y.network| == COUNTERS
    && forall c :: 0 <= c < COUNTERS ==> x.network[c] <= y.network[c]
  }

  lemma ComparedIsLinked(x: Snapshot, y: Snapshot, runId: Identifier, interface: Identifier)
    ensures Compare(x, y, runId, interface).Some? && Compare(x, y, runId, interface).value.delta.Some? <==>
            ValidSnapshot(x, runId, interface) && ValidSnapshot(y, runId, interface) && Linked(x, y)
  {
    if ValidSnapshot(x, runId, interface) && ValidSnapshot(y, runId, interface) {
      var breaks := Breaks(x, y);
      if breaks == {} {
        assert BootIdentityChanged !in breaks && InterfaceReplaced !in breaks && BracketsNotOrdered !in breaks
          && CounterRegressed !in breaks;
      }
      if Linked(x, y) { assert breaks == {}; }
    }
  }

  lemma {:induction false} SharedIdentity(good: seq<Snapshot>, k: nat)
    requires k < |good| && forall i :: 0 <= i < |good| - 1 ==> Linked(good[i], good[i + 1])
    ensures good[k].bootId == good[0].bootId && good[k].ifindex == good[0].ifindex
    ensures k > 0 ==>
      good[0].monoAfter < good[k].monoBefore && good[0].monoBefore <= good[0].monoAfter
      && good[k].monoBefore <= good[k].monoAfter
  {
    if k == 0 {
    } else {
      SharedIdentity(good, k - 1);
      assert Linked(good[k - 1], good[k - 1 + 1]);
    }
  }

  /** An instant of monotonic time at which the snapshot may have been read. */
  ghost predicate ReadAt(s: Snapshot, t: int) { s.monoBefore <= t <= s.monoAfter }

  /** Whenever the two snapshots were read, the bracket holds the time between the reads. */
  ghost predicate SpansElapsed(x: Snapshot, y: Snapshot, bracket: Interval) {
    forall s, t :: ReadAt(x, s) && ReadAt(y, t) ==> bracket.lo <= t - s <= bracket.hi
  }

  /** What stands behind a reported delta: full slot coverage, one identity, and a monotone climb. */
  ghost predicate FullyCovered(series: Series, delta: seq<int>, bracket: Interval) {
    var good := Good(series.samples);
    && |series.samples| == |good| == SLOTS
    && (forall i :: 0 <= i < SLOTS ==> series.samples[i].slot == i && series.samples[i].outcome == Took(good[i]))
    && (forall i :: 0 <= i < SLOTS ==>
          good[i].bootId == good[0].bootId && good[i].ifindex == good[0].ifindex && |good[i].network| == COUNTERS)
    && (forall i :: 0 <= i < SLOTS - 1 ==> Linked(good[i], good[i + 1]))
    && |delta| == COUNTERS && (forall c :: 0 <= c < COUNTERS ==> delta[c] == Climbed(good, c, SLOTS - 1))
    && 0 < bracket.lo
    && SpansElapsed(good[0], good[SLOTS - 1], bracket)
  }

  lemma ReportedDeltaIsFullyCovered(series: Series, runId: Identifier, interface: Identifier, control: int, r: Review)
    requires SeriesAccepted(series, runId, interface, control) && IsReview(r, series) && r.delta.Some?
    ensures FullyCovered(series, r.delta.value, r.bracket.value)
  {
    hide RowAccepted, Linked, ValidSnapshot;
    var rows, good := series.samples, Good(series.samples);
    GoodRows(rows);
    forall i | 0 <= i < SLOTS - 1 ensures Linked(good[i], good[i + 1]) {
      assert CompareAt(good, i, series).Some?;
      ComparedIsLinked(good[i], good[i + 1], series.runId, series.interface);
    }
    hide CompareAt, LinkIssuesTo, RowIssuesTo;
    forall i | 0 <= i < SLOTS ensures rows[i].slot == i {
      RowSlots(series, control);
      SlotsFill(rows, i);
      SlotsFill(rows, SLOTS - 1 - i);
    }
    forall i | 0 <= i < SLOTS
      ensures good[i].bootId == good[0].bootId && good[i].ifindex == good[0].ifindex && |good[i].network| == COUNTERS
    {
      SharedIdentity(good, i);
      LinkedWidth(good, i);
    }
    forall c | 0 <= c < COUNTERS ensures r.delta.value[c] == Climbed(good, c, SLOTS - 1) {
      Telescopes(good, c, SLOTS - 1);
    }
    SharedIdentity(good, SLOTS - 1);
  }

  lemma RowSlots(series: Series, control: int)
    requires forall i :: 0 <= i < |series.samples| ==> RowAccepted(series.samples[i], series, control)
    ensures forall k :: 0 <= k < |series.samples| ==> 0 <= series.samples[k].slot < SLOTS
  {
  }

  lemma LinkedWidth(good: seq<Snapshot>, i: nat)
    requires i < |good| && |good| > 1 && forall k :: 0 <= k < |good| - 1 ==> Linked(good[k], good[k + 1])
    ensures |good[i].network| == COUNTERS
  {
    if i == 0 { assert Linked(good[0], good[0 + 1]); } else { assert Linked(good[i - 1], good[i - 1 + 1]); }
  }

  // ---- The sampler ----

  /** The rows taken so far by a series started at start, none of them ending after now. */
  ghost predicate Produced(rows: seq<Row>, runId: Identifier, interface: Identifier, start: int, now: int) {
    && (forall i :: 0 <= i < |rows| ==> RowProduced(rows[i], runId, interface, start, now))
    && (forall i :: 0 < i < |rows| ==> RowFollows(rows[i - 1], rows[i]))
  }

  ghost predicate RowProduced(row: Row, runId: Identifier, interface: Identifier, start: int, now: int) {
    && 0 <= row.slot < SLOTS && row.slot * PERIOD <= row.begin < (row.slot + 1) * PERIOD
    && row.begin <= row.end <= now - start
    && match row.outcome {
         case Failed(error) => error == OSError || error == ValueError
         case Took(s) => ValidSnapshot(s, runId, interface) && s.throttled.None?
                         && start + row.begin <= s.monoBefore <= s.monoAfter <= start + row.end
       }
  }

  class KernelSeries {
    const runId: Identifier
    const interface: Identifier
    const start: int
    var samples: seq<Row>

    constructor (runId: Identifier, interface: Identifier, start: int)
      ensures this.runId == runId && this.interface == interface && this.start == start && samples == []
    {
      this.runId, this.interface, this.start, samples := runId, interface, start, [];
    }

    /** A kernel-only read: whatever it finds, it is kept only if it is a valid snapshot. */
    method TakeSnapshot(host: Host) returns (outcome: Outcome)
      modifies host
      ensures old(host.mono) <= host.mono
      ensures match outcome
              case Failed(error) => error == OSError || error == ValueError
              case Took(s) => ValidSnapshot(s, runId, interface) && s.throttled.None?
                              && old(host.mono) <= s.monoBefore <= s.monoAfter <= host.mono
    {
      var began := host.Monotonic();
      var unreadable: bool, ifindex: int, boot: Identifier := *, *, *;
      var network: seq<int>, temperature: Option<int> := *, *;
      if unreadable { return Failed(OSError); }
      var ended := host.Monotonic();
      var missing := (if temperature.None? then [Temperature] else []) + [FirmwareThrottled];
      var s := Snapshot(runId, interface, ifindex, boot, began, ended, network, temperature, None, missing);
      outcome := if ValidSnapshot(s, runId, interface) then Took(s) else Failed(ValueError);
    }

    /** A slot is due while it lies in the window and after the last one sampled. */
    predicate Due(rows: seq<Row>, elapsed: int) {
      0 <= elapsed / PERIOD < SLOTS && (rows == [] || rows[|rows| - 1].slot < elapsed / PERIOD)
    }

    /** At most one snapshot per slot, never a catch-up: taken exactly when the slot read on entry is due. */
    method SampleIfDue(host: Host) returns (ghost at: int)
      requires Produced(samples, runId, interface, start, host.mono)
      modifies this, host
      ensures old(host.mono) <= host.mono
      ensures Produced(samples, runId, interface, start, host.mono)
      ensures old(host.mono) <= at <= host.mono
      ensures if Due(old(samples), at - start)
              then |samples| == |old(samples)| + 1 && samples[..|samples| - 1] == old(samples)
                   && samples[|samples| - 1].slot == (at - start) / PERIOD && samples[|samples| - 1].begin == at - start
              else samples == old(samples)
    {
      var before := host.Monotonic();
      ProducedLater(samples, runId, interface, start, old(host.mono), before);
      at := before;
      var slot := (before - start) / PERIOD;
      if !(0 <= slot < SLOTS) || (samples != [] && slot <= samples[|samples| - 1].slot) { return; }
      var outcome := TakeSnapshot(host);
      var after := host.Monotonic();
      ProducedLater(samples, runId, interface, start, before, after);
      var row := Row(slot, before - start, after - start, outcome);
      assert RowProduced(row, runId, interface, start, after);
      assert samples != [] ==> RowProduced(samples[|samples| - 1], runId, interface, start, before);
      samples := samples + [row];
    }

    function Finish(): Series
      reads this
    {
      Series(runId, interface, start, PERIOD, WINDOW, samples, SLOTS - |samples|)
    }
  }

  lemma NothingProduced(runId: Identifier, interface: Identifier, start: int, now: int)
    ensures Produced([], runId, interface, start, now)
  {
  }

  lemma ProducedLater(rows: seq<Row>, runId: Identifier, interface: Identifier, start: int, now: int, later: int)
    requires Produced(rows, runId, interface, start, now) && now <= later
    ensures Produced(rows, runId, interface, start, later)
  {
  }

  lemma {:induction false} ProducedSlotsCount(rows: seq<Row>, runId: Identifier, interface: Identifier, start: int,
                                              now: int)
    requires Produced(rows, runId, interface, start, now) && rows != []
    ensures |rows| - 1 <= rows[|rows| - 1].slot
  {
    var n := |rows|;
    if n <= 1 {
    } else {
      ProducedSlotsCount(rows[..n - 1], runId, interface, start, now);
      assert RowFollows(rows[n - 2], rows[n - 1]);
    }
  }

  /** Whatever the sampler produced, its reviewer accepts it for any control bracket that ends later. */
  lemma ProducedSeriesIsAccepted(rows: seq<Row>, runId: Identifier, interface: Identifier, start: int, now: int,
                                 control: int)
    requires Produced(rows, runId, interface, start, now)
    requires runId.WellFormed? && interface.WellFormed?
    requires Bounded(start) && now - start <= control && Bounded(control)
    ensures |rows| <= SLOTS
    ensures SeriesAccepted(Series(runId, interface, start, PERIOD, WINDOW, rows, SLOTS - |rows|), runId, interface,
                           control)
  {
    if rows != [] {
      ProducedSlotsCount(rows, runId, interface, start, now);
      assert RowProduced(rows[|rows| - 1], runId, interface, start, now);
    }
    hide ValidSnapshot;
  }
}
