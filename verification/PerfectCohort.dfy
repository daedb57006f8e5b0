/**
 A cohort of three nodes with perfect clocks (scripts/pi_lab_results.py:132-252). It shows that the assumptions of an
 overlap review can be met, and, with its sample count taken away, that one refused receipt is refused for that alone.
 */
module PerfectCohort {
  import opened Aggregates
  import opened ClockExchange
  import opened WindowOverlap
  import opened OverlapSoundness
  import E = Environment
  import M = Measurement

  const RUN := WellFormed(0)

  const POLICY := Policy(0, 0, 0, 0, M.WINDOW, 0, M.WINDOW, 0, M.WINDOW)

  /** Every clock of the exchange reads the same time at one instant. */
  function At(time: int): Stamp { Stamp(time, time, time) }

  function ExchangeAt(nonce: int, time: int): Exchange { Derive(At(time), At(time), At(time), RUN, nonce) }

  function TargetOf(role: int): M.Target
    requires role >= 0
  {
    M.Target(RUN, WellFormed(role), M.Private(0, RUN))
  }

  function ConfigOf(role: int): M.Config
    requires role >= 0
  {
    M.Config(2, 3, role, TargetOf(role))
  }

  function LoadOf(role: int): M.Load {
    var latency := M.Latency(5000, M.Finite(1.0), M.Finite(2.0));
    M.Load(5, 3, 10, role, 5000, latency, 0, 0, false, latency, latency,
           [M.Client(0, 2500, Some(0), Some(M.WINDOW)), M.Client(1, 2500, Some(0), Some(M.WINDOW))],
           M.Timing(M.WINDOW, M.Mark(0, 0), M.Mark(M.WINDOW, 0), M.WINDOW))
  }

  function ReceiptOf(role: int): M.Receipt
    requires role >= 0
  {
    var resource := M.Resource(0, M.Finite(0.0), M.WINDOW, 1, 0, 0, 1);
    M.Receipt(LoadOf(role), E.Series(RUN, RUN, 0, E.PERIOD, E.WINDOW, [], 10), TargetOf(role),
              [resource, resource, resource],
              0, 0, M.WINDOW, 0, 0, 0, M.WINDOW, 1, 0, [])
  }

  function RowOf(role: int): Row
    requires role >= 0
  {
    Row(role, ReceiptOf(role), ExchangeAt(2 * role, 0), ExchangeAt(2 * role + 1, M.WINDOW))
  }

  function Rows(n: nat): (r: seq<Row>)
    ensures |r| == n && forall i :: 0 <= i < n ==> r[i] == RowOf(i)
  {
    seq(n, i requires 0 <= i < n => RowOf(i))
  }

  function Configs(n: nat): (r: seq<M.Config>)
    ensures |r| == n && forall i :: 0 <= i < n ==> r[i] == ConfigOf(i)
  {
    seq(n, i requires 0 <= i < n => ConfigOf(i))
  }

  ghost function Perfect(): Clock { t => t }

  /** Identity clocks, and each instant read off them. */
  ghost function PerfectScene(): Scene {
    var end := M.WINDOW as real;
    Scene(Perfect(), Perfect(), Sighting(0.0, 0.0, 0.0), Sighting(end, end, end), 0.0, 0.0, end, end, end)
  }

  lemma RowIsReviewable(role: int)
    requires 0 <= role < 3
    ensures RowReviewable(RowOf(role), role, ConfigOf(role), RUN)
  {
    assert M.Reviewed(ReceiptOf(role), ConfigOf(role));
  }

  lemma RowNonces(role: nat)
    ensures RowOf(role).before.nonce == 2 * role && RowOf(role).after.nonce == 2 * role + 1
  {
  }

  lemma {:induction false} NoncesCount(rows: seq<Row>, k: nat)
    requires k <= |rows| && forall r :: 0 <= r < |rows| ==>
      rows[r].before.nonce == 2 * r && rows[r].after.nonce == 2 * r + 1
    ensures |NoncesTo(rows, k)| == 2 * k && forall i :: 0 <= i < 2 * k ==> NoncesTo(rows, k)[i] == i
  {
    if k == 0 {
    } else {
      NoncesCount(rows, k - 1);
    }
  }

  lemma CohortIsReviewable(rows: seq<Row>, configs: seq<M.Config>)
    requires rows == Rows(3) && configs == Configs(3)
    ensures Reviewable(rows, configs, RUN, POLICY)
  {
    hide RowReviewable, RowOf, ConfigOf, CohortExpected;
    ExpectedCohort(configs);
    NoncesDiffer(rows);
    forall r | 0 <= r < 3 ensures RowReviewable(rows[r], r, configs[r], RUN) {
      RowIsReviewable(r);
    }
    hide Distinct, NoncesTo;
  }

  lemma NoncesDiffer(rows: seq<Row>)
    requires rows == Rows(3)
    ensures Distinct(NoncesTo(rows, 3))
  {
    hide RowOf;
    forall r | 0 <= r < 3 ensures rows[r].before.nonce == 2 * r && rows[r].after.nonce == 2 * r + 1 { RowNonces(r); }
    NoncesCount(rows, 3);
    hide NoncesTo;
  }

  lemma ExpectedCohort(configs: seq<M.Config>)
    requires configs == Configs(3)
    ensures CohortExpected(configs, 3)
  {
  }

  lemma PerfectClocksAreAssumed(span: Span)
    ensures Assumed(Perfect(), PerfectScene(), span, POLICY)
  {
    var c := Perfect();
    forall s: Instant, t: Instant ensures RealAbs((c(t) - c(s)) - (c(t) - c(s))) <= 0 as real { }
    forall s: Instant, t: Instant ensures RealAbs((c(t) - c(t)) - (c(s) - c(s))) <= 0 as real { }
  }

  lemma RowIsWitnessed(role: int, span: Span)
    requires 0 <= role < 3 && span == Span(0.0, M.WINDOW as real)
    ensures Witnessed(RowOf(role), Perfect(), PerfectScene(), span)
  {
  }

  // ---- Their review ----

  lemma NodeIsExact(role: int)
    requires 0 <= role < 3
    ensures NodeOf(RowOf(role), POLICY).role == role
    ensures NodeOf(RowOf(role), POLICY).start == Interval(0, 0)
    ensures NodeOf(RowOf(role), POLICY).end == Interval(M.WINDOW, M.WINDOW)
  {
  }

  lemma ActivityIsClean(role: int, p: Policy)
    requires 0 <= role < 3 && p.maxFirstRequest == 0 && p.minLastCompletion == M.WINDOW
    ensures forall c :: c in RowOf(role).measurement.load.activity ==> ClientIssues(c, p) == {}
  {
  }

  lemma RowIsClean(role: int)
    requires 0 <= role < 3
    ensures LocalIssues(RowOf(role), POLICY) == {}
  {
    ActivityIsClean(role, POLICY);
    assert Issues(RowOf(role).before, ChecksOf(POLICY)) == [] && Issues(RowOf(role).after, ChecksOf(POLICY)) == [];
    assert ProbeIssues(RowOf(role), POLICY) == {};
    hide ClientIssues, ProbeIssues, Issues;
  }

  lemma {:induction false} NothingFlagged(rows: seq<Row>, k: nat, p: Policy)
    requires k <= |rows| && forall r :: 0 <= r < |rows| ==> LocalIssues(rows[r], p) == {}
    ensures FlaggedTo(rows, k, p) == []
  {
    if k == 0 {
    } else {
      NothingFlagged(rows, k - 1, p);
    }
    hide LocalIssues;
  }

  /** The coordinator stamps alternate between the two instants. */
  lemma {:induction false} StampsAreAt(rows: seq<Row>, k: nat)
    requires k <= |rows|
    requires forall r :: 0 <= r < |rows| ==> RowStampsAt(rows[r])
    ensures |StampsTo(rows, k)| == 4 * k
    ensures forall i :: 0 <= i < 4 * k ==> StampsTo(rows, k)[i] == At(if i % 4 < 2 then 0 else M.WINDOW)
  {
    if k == 0 {
    } else {
      StampsAreAt(rows, k - 1);
    }
  }

  lemma SpanIsWindow(stamps: seq<Stamp>, o: Overlap)
    requires |stamps| == 12 && forall i :: 0 <= i < 12 ==> stamps[i] == At(if i % 4 < 2 then 0 else M.WINDOW)
    requires o.span == M.WINDOW && o.cohortIssues == [] && o.skew == 0 && o.common == M.WINDOW
    ensures Judged(o, stamps, POLICY)
  {
    assert stamps[0] == At(0) && stamps[2] == At(M.WINDOW);
    var ends := Ends(stamps);
    assert ends[2] == M.WINDOW;
    assert MaxOf(ends) == M.WINDOW;
    assert !Changed(stamps, stamps[0], 0);
    assert IsAnchor(stamps, 0) && JudgedFrom(o, stamps, stamps[0], POLICY);
  }

  lemma IntervalsMeet(nodes: seq<Node>)
    requires |nodes| == 3
    requires forall r :: 0 <= r < 3 ==>
      nodes[r].role == r && nodes[r].start == Interval(0, 0) && nodes[r].end == Interval(M.WINDOW, M.WINDOW)
    ensures IsSkew(0, nodes) && CommonOf(nodes) == M.WINDOW
  {
    assert Rivals(nodes, 0, 1) && Gap(nodes, 0, 1) == 0;
    assert MaxOf(StartHighs(nodes)) == 0 && MinOf(EndLows(nodes)) == M.WINDOW;
  }

  /**
   The assumptions can be met: an accepted review within bounds, for clocks whose true windows are those it reports.
   */
  lemma AssumptionsCanBeMet() returns (rows: seq<Row>, configs: seq<M.Config>, scenes: seq<Scene>, span: Span,
                                       o: Overlap)
    ensures Reviewable(rows, configs, RUN, POLICY) && IsOverlap(o, rows, RUN, POLICY)
    ensures CohortWitnessed(rows, Perfect(), scenes, span, POLICY)
    ensures o.within && o.common == M.WINDOW && o.skew == 0
    ensures forall r :: 0 <= r < |rows| ==>
      Perfect()(scenes[r].started) == 0.0 && Perfect()(scenes[r].closed) == M.WINDOW as real
  {
    hide RowOf, ConfigOf, NodeOf, LocalIssues, Reviewable, Judged, IsSkew, CommonOf, Witnessed, Assumed, Observes;
    rows, configs, span := Rows(3), Configs(3), Span(0.0, M.WINDOW as real);
    scenes := seq(3, i => PerfectScene());
    CohortIsReviewable(rows, configs);
    PerfectClocksAreAssumed(span);
    forall r | 0 <= r < 3 ensures Witnessed(rows[r], Perfect(), scenes[r], span) { RowIsWitnessed(r, span); }
    o := PerfectOverlap(rows);
  }

  lemma PerfectOverlap(rows: seq<Row>) returns (o: Overlap)
    requires rows == Rows(3)
    ensures IsOverlap(o, rows, RUN, POLICY) && o.within && o.common == M.WINDOW && o.skew == 0
  {
    hide RowOf, NodeOf, LocalIssues, Judged, IsSkew, CommonOf;
    forall r | 0 <= r < 3 ensures LocalIssues(rows[r], POLICY) == {} { RowIsClean(r); }
    NothingFlagged(rows, 3, POLICY);
    var nodes := Nodes(rows, POLICY);
    forall r | 0 <= r < 3
      ensures nodes[r].role == r && nodes[r].start == Interval(0, 0) && nodes[r].end == Interval(M.WINDOW, M.WINDOW)
    {
      NodeIsExact(r);
    }
    IntervalsMeet(nodes);
    o := Overlap(RUN, true, nodes, [], [], M.WINDOW, 0, M.WINDOW);
    forall r | 0 <= r < 3 ensures RowStampsAt(rows[r]) { RowStamps(r); }
    StampsAreAt(rows, 3);
    SpanIsWindow(StampsTo(rows, 3), o);
    hide FlaggedTo, StampsTo, Nodes;
  }

  predicate RowStampsAt(row: Row) {
    row.before.before == row.before.after == At(0) && row.after.before == row.after.after == At(M.WINDOW)
  }

  lemma RowStamps(role: int)
    requires 0 <= role < 3
    ensures RowStampsAt(RowOf(role))
  {
  }

  // ---- A receipt without samples ----

  /** The receipt of a run whose host stalled through the whole window before the first check. */
  function StalledReceipt(role: int): M.Receipt
    requires role >= 0
  {
    ReceiptOf(role).(samples := 0)
  }

  /** It is accounted for like every receipt, refused, and would be accepted with a single sample. */
  lemma StalledReceiptIsRefused(role: int)
    requires 0 <= role < 3
    ensures M.Accounted(StalledReceipt(role), ConfigOf(role), RUN, RUN)
    ensures !M.Reviewed(StalledReceipt(role), ConfigOf(role))
    ensures M.Reviewed(StalledReceipt(role).(samples := 1), ConfigOf(role))
  {
    assert StalledReceipt(role).(samples := 1) == ReceiptOf(role);
    assert M.Reviewed(ReceiptOf(role), ConfigOf(role));
  }
}
