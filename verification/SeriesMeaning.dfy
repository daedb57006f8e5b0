/**
 What a comparison of two host snapshots and the review of a series say (scripts/pi_lab_environment.py:29-56, 102-123
 and 162-236), in terms of the counters, clocks and rows they were made from.
 */
module SeriesMeaning {
  import opened Aggregates
  import opened ClockExchange
  import opened Environment

  // ---- Two snapshots ----

  ghost predicate Genuine(s: Snapshot, runId: Identifier, interface: Identifier) {
    && s.runId == runId && s.interface == interface && runId != Malformed && interface != Malformed
    && s.bootId != Malformed && 1 <= s.ifindex <= 0x7FFF_FFFF
    && 0 <= s.monoBefore <= s.monoAfter <= 0x7FFF_FFFF_FFFF_FFFF
    && |s.network| == 6 && (forall n :: n in s.network ==> 0 <= n <= 0xFFFF_FFFF_FFFF_FFFF)
    && (s.temperature == None || exists t :: s.temperature == Some(t) && -273150 <= t <= 300000)
    && (s.throttled == None || exists t :: s.throttled == Some(t) && 0 <= t <= 0xFFFF_FFFF)
    && (Temperature in s.unavailable <==> s.temperature == None)
    && (FirmwareThrottled in s.unavailable <==> s.throttled == None)
    && (s.unavailable == [] || s.unavailable == [Temperature] || s.unavailable == [FirmwareThrottled]
        || s.unavailable == [Temperature, FirmwareThrottled])
  }

  /** The shape, ranges and accounting that make a snapshot acceptable. */
  lemma SnapshotIff(s: Snapshot, runId: Identifier, interface: Identifier)
    ensures ValidSnapshot(s, runId, interface) <==> Genuine(s, runId, interface)
  {
    if Genuine(s, runId, interface) {
      assert forall i :: 0 <= i < COUNTERS ==> s.network[i] in s.network;
      assert s.unavailable == Absent(s);
    }
  }

  /** Every issue of a comparison, by what makes the comparison report it. */
  ghost predicate Names(issue: CompareIssue, x: Snapshot, y: Snapshot)
    requires |x.network| == |y.network| == 6
  {
    match issue
    case BootIdentityChanged => x.bootId != y.bootId
    case InterfaceReplaced => x.ifindex != y.ifindex
    case BracketsNotOrdered => y.monoBefore <= x.monoAfter
    case CounterRegressed => exists i :: 0 <= i < 6 && y.network[i] < x.network[i]
    case ErrorsOrDrops =>
      x.bootId == y.bootId && x.ifindex == y.ifindex && x.monoAfter < y.monoBefore
      && (forall i :: 0 <= i < 6 ==> x.network[i] <= y.network[i])
      && exists i :: 2 <= i < 6 && x.network[i] != y.network[i]
    case Unavailable(side, Temperature) => (if side.Before? then x else y).temperature == None
    case Unavailable(side, FirmwareThrottled) => (if side.Before? then x else y).throttled == None
    case FirmwareFlags(side) => exists t :: (if side.Before? then x else y).throttled == Some(t) && t != 0
  }

  /** Two valid snapshots: every issue exactly for its cause, and the six differences exactly across a sound pair. */
  lemma ComparisonMeans(x: Snapshot, y: Snapshot, runId: Identifier, interface: Identifier)
    requires Genuine(x, runId, interface) && Genuine(y, runId, interface)
    ensures var c := Compare(x, y, runId, interface);
            && c.Some?
            && (forall issue :: issue in c.value.issues <==> Names(issue, x, y))
            && (c.value.delta.Some? <==> Linked(x, y))
            && (c.value.delta.Some? ==>
                  |c.value.delta.value| == 6
                  && forall i :: 0 <= i < 6 ==> x.network[i] + c.value.delta.value[i] == y.network[i])
  {
    SnapshotIff(x, runId, interface);
    SnapshotIff(y, runId, interface);
    ComparedIsLinked(x, y, runId, interface);
    BreaksNothingIff(x, y);
    FaultsIff(x, y, runId, interface);
    var c := Compare(x, y, runId, interface).value;
    forall issue ensures issue in c.issues <==> Names(issue, x, y) {
      BreaksIff(x, y, issue);
      SideIff(Before, x, y, issue);
      SideIff(After, x, y, issue);
      hide ValidSnapshot, Breaks, SideIssues, Linked;
    }
  }

  lemma FaultsIff(x: Snapshot, y: Snapshot, runId: Identifier, interface: Identifier)
    requires ValidSnapshot(x, runId, interface) && ValidSnapshot(y, runId, interface)
    ensures ErrorsOrDrops in Compare(x, y, runId, interface).value.issues <==> Names(ErrorsOrDrops, x, y)
  {
    BreaksNothingIff(x, y);
    BreaksIff(x, y, ErrorsOrDrops);
    hide ValidSnapshot, Breaks;
    if Breaks(x, y) == {} {
      var d := Delta(x, y);
      assert AnyFault(d) <==> Names(ErrorsOrDrops, x, y) by {
        if i :| 2 <= i < 6 && x.network[i] != y.network[i] { assert d[i] != 0; }
      }
    }
  }

  lemma BreaksIff(x: Snapshot, y: Snapshot, issue: CompareIssue)
    requires |x.network| == |y.network| == 6
    ensures issue in Breaks(x, y) <==>
            (issue.BootIdentityChanged? || issue.InterfaceReplaced? || issue.BracketsNotOrdered?
             || issue.CounterRegressed?) && Names(issue, x, y)
  {
  }

  lemma BreaksNothingIff(x: Snapshot, y: Snapshot)
    requires |x.network| == |y.network| == 6
    ensures Breaks(x, y) == {} <==>
            x.bootId == y.bootId && x.ifindex == y.ifindex && x.monoAfter < y.monoBefore
            && forall i :: 0 <= i < 6 ==> x.network[i] <= y.network[i]
  {
    BreaksIff(x, y, BootIdentityChanged);
    BreaksIff(x, y, InterfaceReplaced);
    BreaksIff(x, y, BracketsNotOrdered);
    BreaksIff(x, y, CounterRegressed);
    forall issue | issue in Breaks(x, y) ensures Names(issue, x, y) { BreaksIff(x, y, issue); }
  }

  lemma SideIff(side: Side, x: Snapshot, y: Snapshot, issue: CompareIssue)
    requires |x.network| == |y.network| == 6
    requires var s := if side.Before? then x else y;
             (Temperature in s.unavailable <==> s.temperature == None)
             && (FirmwareThrottled in s.unavailable <==> s.throttled == None)
    ensures issue in SideIssues(side, if side.Before? then x else y) <==>
            (issue.Unavailable? || issue.FirmwareFlags?) && issue.side == side && Names(issue, x, y)
  {
  }

  // ---- A series ----

  ghost predicate GenuineRow(row: Row, series: Series, control: int) {
    && 0 <= row.slot <= 9 && row.slot * 1_000_000_000 <= row.begin < row.slot * 1_000_000_000 + 1_000_000_000
    && row.begin <= row.end <= control && row.end <= 0x7FFF_FFFF_FFFF_FFFF
    && match row.outcome
       case Failed(error) =>
         error.OSError? || error.FileNotFoundError? || error.PermissionError? || error.ValueError?
         || error.TimeoutError?
       case Took(s) =>
         Genuine(s, series.runId, series.interface) && s.throttled == None
         && row.begin <= s.monoBefore - series.start && s.monoAfter - series.start <= row.end
  }

  /** One row a second at most, each inside its slot, in order and disjoint; the missing ones are counted. */
  ghost predicate GenuineSeries(series: Series, runId: Identifier, interface: Identifier, control: int) {
    && series.runId == runId != Malformed && series.interface == interface != Malformed
    && 0 <= series.start <= 0x7FFF_FFFF_FFFF_FFFF && 0 <= control <= 0x7FFF_FFFF_FFFF_FFFF
    && series.period == 1_000_000_000 && series.window == 10_000_000_000
    && |series.samples| <= 10 && series.missed + |series.samples| == 10
    && (forall i :: 0 <= i < |series.samples| ==> GenuineRow(series.samples[i], series, control))
    && forall i, j :: 0 <= i < j < |series.samples| ==>
         series.samples[i].slot < series.samples[j].slot && series.samples[i].end <= series.samples[j].begin
  }

  lemma RowIff(row: Row, series: Series, control: int)
    ensures RowAccepted(row, series, control) <==> GenuineRow(row, series, control)
  {
    if row.outcome.Took? { SnapshotIff(row.outcome.snapshot, series.runId, series.interface); }
    hide ValidSnapshot, Genuine;
  }

  lemma {:induction false} InOrder(rows: seq<Row>, i: nat, j: nat)
    requires i < j < |rows| && forall k :: 0 < k < |rows| ==> RowFollows(rows[k - 1], rows[k])
    requires forall k :: 0 <= k < |rows| ==> rows[k].begin <= rows[k].end
    ensures rows[i].slot < rows[j].slot && rows[i].end <= rows[j].begin
  {
    assert RowFollows(rows[j - 1], rows[j]);
    if i < j - 1 { InOrder(rows, i, j - 1); }
  }

  lemma SeriesIff(series: Series, runId: Identifier, interface: Identifier, control: int)
    ensures SeriesAccepted(series, runId, interface, control) <==> GenuineSeries(series, runId, interface, control)
  {
    var rows := series.samples;
    forall i | 0 <= i < |rows|
      ensures RowAccepted(rows[i], series, control) <==> GenuineRow(rows[i], series, control)
      ensures RowAccepted(rows[i], series, control) ==> rows[i].begin <= rows[i].end
    {
      RowIff(rows[i], series, control);
    }
    hide RowAccepted, GenuineRow;
    if SeriesAccepted(series, runId, interface, control) {
      forall i, j | 0 <= i < j < |rows| ensures rows[i].slot < rows[j].slot && rows[i].end <= rows[j].begin {
        InOrder(rows, i, j);
      }
    }
  }

  /** Two successful rows with none but failed ones between them. */
  ghost predicate Neighbours(rows: seq<Row>, a: int, b: int) {
    && 0 <= a < b < |rows| && rows[a].outcome.Took? && rows[b].outcome.Took?
    && forall k :: a < k < b ==> rows[k].outcome.Failed?
  }

  /** Where the good snapshots were taken. */
  ghost predicate TakenAt(rows: seq<Row>, places: seq<int>) {
    && |places| == |Good(rows)|
    && (forall k :: 0 <= k < |places| ==> 0 <= places[k] < |rows| && rows[places[k]].outcome == Took(Good(rows)[k]))
    && (forall k, l :: 0 <= k < l < |places| ==> places[k] < places[l])
    && forall i :: 0 <= i < |rows| && rows[i].outcome.Took? ==> i in places
  }

  lemma {:induction false} Places(rows: seq<Row>) returns (places: seq<int>)
    ensures TakenAt(rows, places)
  {
    if rows == [] {
      places := [];
    } else {
      var n := |rows| - 1;
      places := Places(rows[..n]);
      if rows[n].outcome.Took? { places := places + [n]; }
    }
  }

  lemma NeighboursAreAdjacent(rows: seq<Row>, places: seq<int>, a: int, b: int)
    requires TakenAt(rows, places) && Neighbours(rows, a, b)
    ensures exists k :: 0 <= k < |places| - 1 && Adjacent(places, k, a, b)
  {
    var k :| 0 <= k < |places| && places[k] == a;
    var l :| 0 <= l < |places| && places[l] == b;
    assert k + 1 <= l && places[k + 1] <= b;
    assert k + 1 == l by { assert rows[places[k + 1]].outcome.Took?; }
    assert Adjacent(places, k, a, b);
  }

  ghost predicate Adjacent(places: seq<int>, k: int, a: int, b: int)
    requires 0 <= k < |places| - 1
  {
    places[k] == a && places[k + 1] == b
  }

  lemma AdjacentAreNeighbours(rows: seq<Row>, places: seq<int>, k: int)
    requires TakenAt(rows, places) && 0 <= k < |places| - 1
    ensures Neighbours(rows, places[k], places[k + 1])
  {
    forall i | places[k] < i < places[k + 1] ensures rows[i].outcome.Failed? { NoneBetween(places, k, i); }
  }

  lemma NoneBetween(places: seq<int>, k: int, i: int)
    requires 0 <= k < |places| - 1 && places[k] < i < places[k + 1]
    requires forall k, l :: 0 <= k < l < |places| ==> places[k] < places[l]
    ensures i !in places
  {
  }

  /** Some pair of neighbouring snapshots is compared with this issue. */
  ghost predicate BetweenNeighbours(rows: seq<Row>, issue: CompareIssue, a: int, b: int) {
    && Neighbours(rows, a, b)
    && |rows[a].outcome.snapshot.network| == |rows[b].outcome.snapshot.network| == 6
    && Names(issue, rows[a].outcome.snapshot, rows[b].outcome.snapshot)
  }

  ghost predicate Reports(series: Series, issue: SeriesIssue) {
    var rows := series.samples;
    match issue
    case SamplesMissed => |rows| < 10
    case CrossedWindowEnd => exists i :: 0 <= i < |rows| && rows[i].end > 10_000_000_000
    case SampleFailed => exists i :: 0 <= i < |rows| && rows[i].outcome.Failed?
    case TemperatureUnavailable =>
      exists i :: 0 <= i < |rows| && rows[i].outcome.Took? && rows[i].outcome.snapshot.temperature == None
    case Compared(c) =>
      c != Unavailable(Before, FirmwareThrottled) && c != Unavailable(After, FirmwareThrottled)
      && exists a, b :: BetweenNeighbours(rows, c, a, b)
  }

  lemma RowIssuesIff(rows: seq<Row>, issue: SeriesIssue)
    ensures issue in RowIssuesTo(rows, |rows|) <==> exists i :: 0 <= i < |rows| && issue in RowIssues(rows[i])
  {
  }

  lemma LinkIssuesIff(series: Series, good: seq<Snapshot>, issue: SeriesIssue)
    ensures issue in LinkIssuesTo(good, |good| - 1, series) <==>
            exists k :: 0 <= k < |good| - 1 && issue in LinkIssues(good, k, series)
  {
  }

  ghost predicate AllGenuine(good: seq<Snapshot>, series: Series) {
    forall k :: 0 <= k < |good| ==> Genuine(good[k], series.runId, series.interface)
  }

  lemma PairIff(c: Comparison, issue: CompareIssue)
    ensures Compared(issue) in PairIssues(c) <==>
            issue in c.issues && issue != Unavailable(Before, FirmwareThrottled)
            && issue != Unavailable(After, FirmwareThrottled)
    ensures forall i :: i in PairIssues(c) ==> i.Compared?
  {
    if issue.Unavailable? { assert issue.side == Before || issue.side == After; }
  }

  lemma LinkIssueIff(series: Series, good: seq<Snapshot>, k: int, c: CompareIssue)
    requires 0 <= k < |good| - 1 && AllGenuine(good, series)
    ensures Compared(c) in LinkIssues(good, k, series) <==>
            c != Unavailable(Before, FirmwareThrottled) && c != Unavailable(After, FirmwareThrottled)
            && Names(c, good[k], good[k + 1])
    ensures forall i :: i in LinkIssues(good, k, series) ==> i.Compared?
  {
    var x, y := good[k], good[k + 1];
    assert Genuine(x, series.runId, series.interface) && Genuine(y, series.runId, series.interface);
    ComparisonMeans(x, y, series.runId, series.interface);
    PairIff(Compare(x, y, series.runId, series.interface).value, c);
    hide Compare, Names, Genuine, Linked, AllGenuine, PairIssues;
  }

  lemma GoodAreGenuine(series: Series, places: seq<int>, control: int)
    requires forall i :: 0 <= i < |series.samples| ==> GenuineRow(series.samples[i], series, control)
    requires TakenAt(series.samples, places)
    ensures AllGenuine(Good(series.samples), series)
  {
    hide Genuine;
    forall k | 0 <= k < |places| ensures Genuine(Good(series.samples)[k], series.runId, series.interface) {
      assert GenuineRow(series.samples[places[k]], series, control);
    }
  }

  lemma ComparedIff(series: Series, places: seq<int>, c: CompareIssue)
    requires TakenAt(series.samples, places) && AllGenuine(Good(series.samples), series)
    ensures var good := Good(series.samples);
            Compared(c) in LinkIssuesTo(good, |good| - 1, series) <==> Reports(series, Compared(c))
  {
    var rows, good := series.samples, Good(series.samples);
    hide Names, LinkIssues;
    LinkIssuesIff(series, good, Compared(c));
    hide LinkIssuesTo;
    if k :| 0 <= k < |good| - 1 && Compared(c) in LinkIssues(good, k, series) {
      LinkIssueIff(series, good, k, c);
      AdjacentAreNeighbours(rows, places, k);
      assert BetweenNeighbours(rows, c, places[k], places[k + 1]);
    }
    if Reports(series, Compared(c)) {
      var a, b :| BetweenNeighbours(rows, c, a, b);
      NeighboursAreAdjacent(rows, places, a, b);
      var k :| 0 <= k < |places| - 1 && Adjacent(places, k, a, b);
      LinkIssueIff(series, good, k, c);
    }
  }

  lemma IssuesIff(series: Series, places: seq<int>, issue: SeriesIssue)
    requires TakenAt(series.samples, places) && AllGenuine(Good(series.samples), series)
    requires series.missed + |series.samples| == 10 && |series.samples| <= 10
    ensures var good := Good(series.samples);
            issue in (if series.missed != 0 then {SamplesMissed} else {})
              + RowIssuesTo(series.samples, |series.samples|) + LinkIssuesTo(good, |good| - 1, series) <==>
            Reports(series, issue)
  {
    var rows, good := series.samples, Good(series.samples);
    RowIssuesIff(rows, issue);
    LinkIssuesIff(series, good, issue);
    if issue.Compared? { ComparedIff(series, places, issue.issue); }
    forall k | 0 <= k < |good| - 1 ensures issue in LinkIssues(good, k, series) ==> issue.Compared? {
      LinkIssueIff(series, good, k, CounterRegressed);
    }
    hide RowIssuesTo, LinkIssuesTo, LinkIssues, AllGenuine, TakenAt, BetweenNeighbours;
  }

  // ---- The review ----

  /** The warmest sampled temperature. */
  ghost predicate Warmest(rows: seq<Row>, peak: int) {
    Seen(rows, peak) && forall t :: Seen(rows, t) ==> t <= peak
  }

  ghost predicate Seen(rows: seq<Row>, t: int) { exists i :: 0 <= i < |rows| && Reads(rows[i], t) }

  ghost predicate Reads(row: Row, t: int) { row.outcome.Took? && row.outcome.snapshot.temperature == Some(t) }

  ghost predicate AllTaken(rows: seq<Row>) { forall i :: 0 <= i < |rows| ==> rows[i].outcome.Took? }

  /** Ten rows, all of them taken, one boot and interface, disjoint brackets and counters that never fell. */
  ghost predicate Unbroken(rows: seq<Row>) {
    && |rows| == 10 && AllTaken(rows)
    && forall i :: 0 <= i < 9 ==> Linked(rows[i].outcome.snapshot, rows[i + 1].outcome.snapshot)
  }

  ghost function Failures(rows: seq<Row>): set<int> { set i | 0 <= i < |rows| && rows[i].outcome.Failed? }

  ghost predicate ReviewMeans(r: Review, series: Series) {
    var rows := series.samples;
    && (forall issue :: issue in r.issues <==> Reports(series, issue))
    && r.missed + |rows| == 10 && r.failed == |Failures(rows)|
    && (forall p :: r.peak == Some(p) <==> Warmest(rows, p))
    && (r.temperaturesComplete <==> |rows| == 10 && forall i :: 0 <= i < 10 ==> Measured(rows[i]))
    && (r.delta.Some? <==> Unbroken(rows)) && (r.bracket.Some? <==> Unbroken(rows))
    && (Unbroken(rows) ==> CoversWindow(r.delta.value, r.bracket.value, rows[0].outcome.snapshot,
                                        rows[9].outcome.snapshot))
  }

  ghost predicate CoversWindow(delta: seq<int>, bracket: Interval, first: Snapshot, last: Snapshot) {
    && |delta| == |first.network| == |last.network| == 6
    && (forall i :: 0 <= i < 6 ==> first.network[i] + delta[i] == last.network[i])
    && first.monoAfter + bracket.lo == last.monoBefore && first.monoBefore + bracket.hi == last.monoAfter
  }

  lemma {:induction false} FailuresCount(rows: seq<Row>)
    ensures |Failures(rows)| + |Good(rows)| == |rows|
  {
    if rows == [] {
    } else {
      var n := |rows| - 1;
      FailuresCount(rows[..n]);
      var before := Failures(rows[..n]);
      assert Failures(rows) == if rows[n].outcome.Failed? then before + {n} else before;
    }
  }

  lemma OneMoreRow(rows: seq<Row>, row: Row)
    ensures Temperatures(Good(rows + [row])) ==
            Temperatures(Good(rows))
            + (if row.outcome.Took? && row.outcome.snapshot.temperature.Some?
               then [row.outcome.snapshot.temperature.value] else [])
  {
    assert (rows + [row])[..|rows|] == rows;
    if row.outcome.Took? {
      var s := row.outcome.snapshot;
      assert Good(rows + [row]) == Good(rows) + [s];
      assert (Good(rows) + [s])[..|Good(rows)|] == Good(rows);
    } else {
      assert Good(rows + [row]) == Good(rows);
    }
  }

  lemma {:induction false} TemperaturesAre(rows: seq<Row>, t: int)
    ensures t in Temperatures(Good(rows)) <==> exists i :: 0 <= i < |rows| && Reads(rows[i], t)
  {
    if rows != [] {
      var n := |rows| - 1;
      TemperaturesAre(rows[..n], t);
      OneMoreRow(rows[..n], rows[n]);
      assert rows == rows[..n] + [rows[n]];
      hide Good, Temperatures;
      assert forall i :: 0 <= i < n ==> rows[..n][i] == rows[i];
    }
  }

  ghost predicate Measured(row: Row) { exists t :: Reads(row, t) }

  lemma MeasuredIff(row: Row)
    ensures Measured(row) <==> row.outcome.Took? && row.outcome.snapshot.temperature.Some?
  {
    if row.outcome.Took? && row.outcome.snapshot.temperature.Some? {
      assert Reads(row, row.outcome.snapshot.temperature.value);
    }
  }

  lemma {:induction false} TemperaturesCount(rows: seq<Row>)
    ensures |Temperatures(Good(rows))| <= |rows|
    ensures |Temperatures(Good(rows))| == |rows| <==> forall i :: 0 <= i < |rows| ==> Measured(rows[i])
  {
    if rows != [] {
      var n := |rows| - 1;
      TemperaturesCount(rows[..n]);
      OneMoreRow(rows[..n], rows[n]);
      MeasuredIff(rows[n]);
      assert rows == rows[..n] + [rows[n]];
      hide Good, Temperatures, Measured;
      assert forall i :: 0 <= i < n ==> rows[..n][i] == rows[i];
    }
  }

  lemma {:induction false} GoodCount(rows: seq<Row>)
    ensures |Good(rows)| <= |rows|
    ensures |Good(rows)| == |rows| <==> AllTaken(rows)
    ensures AllTaken(rows) ==> forall i :: 0 <= i < |rows| ==> Good(rows)[i] == rows[i].outcome.snapshot
  {
    if rows != [] {
      var n := |rows| - 1;
      GoodCount(rows[..n]);
      assert forall i :: 0 <= i < n ==> rows[..n][i] == rows[i];
    }
  }

  /** The series compares from end to end exactly when it is unbroken. */
  lemma ComparableIff(series: Series)
    requires AllGenuine(Good(series.samples), series)
    ensures var good := Good(series.samples);
            |good| == SLOTS && ComparableTo(good, SLOTS - 1, series) && |series.samples| <= 10 ==>
              Unbroken(series.samples)
    ensures Unbroken(series.samples) ==>
              var good := Good(series.samples);
              |good| == SLOTS && ComparableTo(good, SLOTS - 1, series)
  {
    var rows, good := series.samples, Good(series.samples);
    GoodCount(rows);
    forall i | 0 <= i < |good| - 1
      ensures var c := CompareAt(good, i, series);
              c.Some? && c.value.delta.Some? <==> Linked(good[i], good[i + 1])
    {
      assert Genuine(good[i], series.runId, series.interface) && Genuine(good[i + 1], series.runId, series.interface);
      ComparisonMeans(good[i], good[i + 1], series.runId, series.interface);
      hide Compare, Names, Genuine, Linked, AllGenuine;
    }
    hide CompareAt, Linked, AllGenuine, Good;
  }

  lemma WarmestIs(rows: seq<Row>)
    ensures var warm := Temperatures(Good(rows));
            forall p :: (if warm == [] then None else Some(MaxOf(warm))) == Some(p) <==> Warmest(rows, p)
  {
    var warm := Temperatures(Good(rows));
    forall t ensures t in warm <==> Seen(rows, t) { TemperaturesAre(rows, t); }
    hide Good, Temperatures, Seen, MaxOf;
    if warm != [] { GreatestIs(warm, MaxOf(warm)); }
  }

  lemma GreatestIs(values: seq<int>, most: int)
    requires values != [] && most == MaxOf(values)
    ensures most in values && forall v :: v in values ==> v <= most
  {
  }

  lemma IssuesAreExact(r: Review, series: Series, places: seq<int>)
    requires IsReview(r, series) && TakenAt(series.samples, places) && AllGenuine(Good(series.samples), series)
    requires series.missed + |series.samples| == 10 && |series.samples| <= 10
    ensures forall issue :: issue in r.issues <==> Reports(series, issue)
  {
    forall issue ensures issue in r.issues <==> Reports(series, issue) {
      IssuesIff(series, places, issue);
      hide Reports, RowIssuesTo, LinkIssuesTo, Good, TakenAt, AllGenuine;
    }
  }

  lemma CountsAreExact(r: Review, series: Series)
    requires IsReview(r, series) && series.missed + |series.samples| == 10
    ensures r.missed + |series.samples| == 10 && r.failed == |Failures(series.samples)|
    ensures forall p :: r.peak == Some(p) <==> Warmest(series.samples, p)
  {
    FailuresCount(series.samples);
    WarmestIs(series.samples);
    hide Good, Temperatures, Warmest, MaxOf, Failures, RowIssuesTo, LinkIssuesTo;
  }

  lemma CompleteIff(r: Review, series: Series)
    requires IsReview(r, series) && |series.samples| <= 10
    ensures r.temperaturesComplete <==>
            |series.samples| == 10 && forall i :: 0 <= i < 10 ==> Measured(series.samples[i])
  {
    TemperaturesCount(series.samples);
    hide Good, Temperatures, MaxOf, RowIssuesTo, LinkIssuesTo, Measured;
  }

  lemma DeltaIsExact(r: Review, series: Series)
    requires IsReview(r, series) && AllGenuine(Good(series.samples), series) && |series.samples| <= 10
    ensures var rows := series.samples;
            && (r.delta.Some? <==> Unbroken(rows)) && (r.bracket.Some? <==> Unbroken(rows))
            && (Unbroken(rows) ==> CoversWindow(r.delta.value, r.bracket.value, rows[0].outcome.snapshot,
                                                rows[9].outcome.snapshot))
  {
    ComparableIff(series);
    GoodCount(series.samples);
    hide Temperatures, MaxOf, RowIssuesTo, LinkIssuesTo, ComparableTo, Linked, AllGenuine, Good;
  }

  /** Everything an accepted review says, read off the rows. */
  lemma ReviewIsExact(r: Review, series: Series, runId: Identifier, interface: Identifier, control: int)
    requires SeriesAccepted(series, runId, interface, control) && IsReview(r, series)
    ensures ReviewMeans(r, series)
  {
    hide *;
    var places := Ready(series, runId, interface, control);
    IssuesAreExact(r, series, places);
    CountsAreExact(r, series);
    CompleteIff(r, series);
    DeltaIsExact(r, series);
    Together(r, series);
  }

  lemma Ready(series: Series, runId: Identifier, interface: Identifier, control: int) returns (places: seq<int>)
    requires SeriesAccepted(series, runId, interface, control)
    ensures TakenAt(series.samples, places) && AllGenuine(Good(series.samples), series)
    ensures series.missed + |series.samples| == 10 && |series.samples| <= 10
  {
    SeriesIff(series, runId, interface, control);
    hide SeriesAccepted, GenuineRow;
    places := Places(series.samples);
    GoodAreGenuine(series, places, control);
  }

  lemma Together(r: Review, series: Series)
    requires forall issue :: issue in r.issues <==> Reports(series, issue)
    requires r.missed + |series.samples| == 10 && r.failed == |Failures(series.samples)|
    requires forall p :: r.peak == Some(p) <==> Warmest(series.samples, p)
    requires r.temperaturesComplete <==>
             |series.samples| == 10 && forall i :: 0 <= i < 10 ==> Measured(series.samples[i])
    requires var rows := series.samples;
             && (r.delta.Some? <==> Unbroken(rows)) && (r.bracket.Some? <==> Unbroken(rows))
             && (Unbroken(rows) ==> CoversWindow(r.delta.value, r.bracket.value, rows[0].outcome.snapshot,
                                                 rows[9].outcome.snapshot))
    ensures ReviewMeans(r, series)
  {
  }
}
