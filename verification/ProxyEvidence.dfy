/**
 Write-pressure evidence from an interleaved proxy debug log
 (ProxyWriteEvidence in scripts/check-worker-monitoring-proxy.py).
 A line is its length and what its pattern match gives: a connection number and a message.
 */
module ProxyEvidence {
  import opened Aggregates

  const MAX_LINE := 8192
  const MAX_TOTAL := 8 * 1024 * 1024
  const MAX_CONNECTIONS := 64

  datatype Message = Accept(port: nat) | FailedWrite | WantWrite | Request | Wrote(bytes: nat)
    | Other(timedOut: bool, closes: bool)

  datatype Line = Line(length: nat, parsed: Option<(nat, Message)>, now: int)

  /** One connection's message and when it was read. */
  datatype Timed = Timed(message: Message, now: int)

  datatype Connection = Connection(port: nat, requests: nat, written: nat, failedWrite: bool, blocked: Option<int>,
                                   expired: Option<int>, closed: Option<int>)

  datatype Failure = ByteBudget | Inventory

  // ---- One connection alone ----

  /** What one message does to its own connection. */
  function Step(c: Connection, t: Timed): Connection {
    var m := t.message;
    var requests := c.requests + (if m.Request? then 1 else 0);
    var blocked := if c.failedWrite && m.WantWrite? && requests > 0 && c.blocked.None? then Some(t.now) else c.blocked;
    Connection(c.port, requests, c.written + (if m.Wrote? then m.bytes else 0), m.FailedWrite?, blocked,
               if m.Other? && m.timedOut && blocked.Some? then Some(t.now) else c.expired,
               if m.Other? && m.closes then Some(t.now) else c.closed)
  }

  function Fresh(port: nat): Connection { Connection(port, 0, 0, false, None, None, None) }

  /** The state after a connection's own messages, the first being its acceptance. */
  function Alone(own: seq<Timed>): Connection
    requires own != [] && own[0].message.Accept?
  {
    if |own| == 1 then Fresh(own[0].message.port)
    else Step(Alone(own[..|own| - 1]), own[|own| - 1])
  }

  /** A refused TLS write directly followed by WANT_WRITE, after a request: downstream pressure. */
  ghost predicate Pressure(own: seq<Timed>, i: nat) {
    0 < i < |own| && own[i].message.WantWrite? && own[i - 1].message.FailedWrite? && Requested(own, i)
  }

  ghost predicate Requested(own: seq<Timed>, i: nat)
    requires i < |own|
  {
    exists j :: 0 <= j < i && own[j].message == Request
  }

  ghost predicate FirstPressure(own: seq<Timed>, i: nat) {
    Pressure(own, i) && forall j :: 0 <= j < i ==> !Pressure(own, j)
  }

  ghost predicate Lapse(own: seq<Timed>, i: nat, first: nat) {
    first <= i < |own| && own[i].message.Other? && own[i].message.timedOut
  }

  ghost predicate LastLapse(own: seq<Timed>, j: nat, first: nat) {
    Lapse(own, j, first) && forall k :: j < k < |own| ==> !Lapse(own, k, first)
  }

  /** Blocked at the first pressure, and expired at the last send timeout from there on. */
  ghost predicate Since(own: seq<Timed>, c: Connection, i: nat) {
    && FirstPressure(own, i) && c.blocked == Some(own[i].now)
    && (c.expired.None? ==> forall j :: i <= j < |own| ==> !Lapse(own, j, i))
    && (c.expired.Some? ==> exists j: nat :: LastLapse(own, j, i) && own[j].now == c.expired.value)
  }

  ghost predicate Explained(own: seq<Timed>, c: Connection) {
    && (c.blocked.None? ==> c.expired.None? && forall i :: 0 <= i < |own| ==> !Pressure(own, i))
    && (c.blocked.Some? ==> exists i: nat :: Since(own, c, i))
  }

  ghost function Requests(own: seq<Timed>): set<int> { set i | 0 <= i < |own| && own[i].message == Request }

  ghost function Written(own: seq<Timed>): nat {
    if own == [] then 0 else Written(own[1..]) + (if own[0].message.Wrote? then own[0].message.bytes else 0)
  }

  predicate Closing(own: seq<Timed>, i: nat) { i < |own| && own[i].message.Other? && own[i].message.closes }

  /** Totals of requests and bytes, whether the last message was a refused write, and when it last closed. */
  ghost predicate Counted(own: seq<Timed>, c: Connection) {
    && (c.failedWrite <==> own != [] && own[|own| - 1].message == FailedWrite)
    && c.requests == |Requests(own)| && c.written == Written(own)
    && ClosedLast(own, c.closed)
  }

  ghost predicate ClosedLast(own: seq<Timed>, closed: Option<int>) {
    if closed.None? then forall i :: 0 <= i < |own| ==> !Closing(own, i)
    else exists i: nat :: LastClosing(own, i) && own[i].now == closed.value
  }

  ghost predicate LastClosing(own: seq<Timed>, i: nat) {
    Closing(own, i) && forall k :: i < k < |own| ==> !Closing(own, k)
  }

  lemma {:induction false} WrittenGrows(own: seq<Timed>)
    requires own != []
    ensures var last := own[|own| - 1];
            Written(own) == Written(own[..|own| - 1]) + (if last.message.Wrote? then last.message.bytes else 0)
  {
    if |own| <= 1 {
    } else {
      WrittenGrows(own[1..]);
      assert own[1..][..|own| - 2] == own[..|own| - 1][1..];
    }
  }

  lemma ClosingGrows(own: seq<Timed>, closed: Option<int>)
    requires own != [] && ClosedLast(own[..|own| - 1], closed)
    ensures ClosedLast(own, if Closing(own, |own| - 1) then Some(own[|own| - 1].now) else closed)
  {
    var last, init := |own| - 1, own[..|own| - 1];
    forall i | 0 <= i < last ensures Closing(own, i) <==> Closing(init, i) { }
    if Closing(own, last) {
      assert LastClosing(own, last);
    } else if closed.Some? {
      var i: nat :| LastClosing(init, i) && init[i].now == closed.value;
      assert LastClosing(own, i);
    }
  }

  lemma {:induction false} AloneCounts(own: seq<Timed>)
    requires own != [] && own[0].message.Accept?
    ensures Counted(own, Alone(own)) && Alone(own).port == own[0].message.port
  {
    if |own| > 1 {
      var init, last := own[..|own| - 1], |own| - 1;
      AloneCounts(init);
      assert Requests(own) == Requests(init) + (if own[last].message == Request then {last} else {});
      WrittenGrows(own);
      ClosingGrows(own, Alone(init).closed);
      hide Requests, Written, ClosedLast;
    } else {
      assert Requests(own) == {} && Written(own) == 0;
      forall i | 0 <= i < |own| ensures !Closing(own, i) { assert i == 0; }
    }
  }

  lemma AnyRequest(own: seq<Timed>)
    ensures |Requests(own)| > 0 <==> exists j :: 0 <= j < |own| && own[j].message == Request
  {
    if j :| 0 <= j < |own| && own[j].message == Request { assert j in Requests(own); }
    if |Requests(own)| > 0 {
      var j :| j in Requests(own);
    }
  }

  lemma PressureGrows(own: seq<Timed>, i: nat)
    requires own != [] && i < |own| - 1
    ensures Pressure(own, i) <==> Pressure(own[..|own| - 1], i)
    ensures FirstPressure(own, i) <==> FirstPressure(own[..|own| - 1], i)
  {
    var init := own[..|own| - 1];
    forall k | 0 <= k < |init| ensures own[k] == init[k] && (Requested(own, k) <==> Requested(init, k)) {
      if j :| 0 <= j < k && own[j].message == Request { assert init[j].message == Request; }
      if j :| 0 <= j < k && init[j].message == Request { assert own[j].message == Request; }
    }
    assert forall k :: 0 <= k <= i ==> (Pressure(own, k) <==> Pressure(init, k));
  }

  lemma LastPressure(own: seq<Timed>)
    requires |own| > 1 && own[0].message.Accept?
    ensures var c := Alone(own[..|own| - 1]);
            Pressure(own, |own| - 1) <==> c.failedWrite && own[|own| - 1].message.WantWrite? && c.requests > 0
  {
    var init := own[..|own| - 1];
    AloneCounts(init);
    AnyRequest(init);
    hide Requests, Written, ClosedLast;
    if j :| 0 <= j < |init| && init[j].message == Request { assert own[j].message == Request; }
    if j :| 0 <= j < |init| && own[j].message == Request { assert init[j].message == Request; }
    assert own[|own| - 2] == init[|init| - 1];
    hide Alone;
  }

  /** The incremental state says exactly this of the connection's own history. */
  lemma {:induction false} AloneExplained(own: seq<Timed>)
    requires own != [] && own[0].message.Accept?
    ensures Explained(own, Alone(own))
  {
    if |own| <= 1 {
    } else {
      AloneExplained(own[..|own| - 1]);
      LastPressure(own);
      ExplainedGrows(own, Alone(own[..|own| - 1]));
    }
  }

  lemma ExplainedGrows(own: seq<Timed>, c: Connection)
    requires |own| > 1 && Explained(own[..|own| - 1], c)
    requires Pressure(own, |own| - 1) <==> c.failedWrite && own[|own| - 1].message.WantWrite? && c.requests > 0
    ensures Explained(own, Step(c, own[|own| - 1]))
  {
    var init, last, next := own[..|own| - 1], |own| - 1, Step(c, own[|own| - 1]);
    forall i | 0 <= i < last ensures (Pressure(own, i) <==> Pressure(init, i))
      && (FirstPressure(own, i) <==> FirstPressure(init, i)) {
      PressureGrows(own, i);
    }
    hide Requested;
    if c.blocked.Some? {
      var i: nat :| Since(init, c, i);
      StillSince(own, c, i);
    } else if Pressure(own, last) {
      assert FirstPressure(own, last);
      assert next.blocked == Some(own[last].now) && next.expired.None?;
      assert Since(own, next, last);
    } else {
      hide Pressure;
      assert next.blocked.None? && next.expired.None?;
    }
  }

  lemma StillSince(own: seq<Timed>, c: Connection, i: nat)
    requires |own| > 1 && Since(own[..|own| - 1], c, i)
    ensures Since(own, Step(c, own[|own| - 1]), i)
  {
    var last, init, next := |own| - 1, own[..|own| - 1], Step(c, own[|own| - 1]);
    PressureGrows(own, i);
    hide Pressure, FirstPressure;
    forall j | i <= j < last ensures Lapse(own, j, i) <==> Lapse(init, j, i) { }
    if Lapse(own, last, i) {
      assert LastLapse(own, last, i) && next.expired == Some(own[last].now);
    } else if c.expired.Some? {
      var j: nat :| LastLapse(init, j, i) && init[j].now == c.expired.value;
      assert LastLapse(own, j, i);
    }
  }

  ghost predicate Ordered(own: seq<Timed>) {
    forall i, j :: 0 <= i <= j < |own| ==> own[i].now <= own[j].now
  }

  /** With clock readings that never go back, an expiry follows its block. */
  lemma BlockedBeforeExpired(own: seq<Timed>)
    requires own != [] && own[0].message.Accept? && Ordered(own)
    ensures Alone(own).expired.Some? ==>
      Alone(own).blocked.Some? && Alone(own).blocked.value <= Alone(own).expired.value
  {
    AloneExplained(own);
    hide Alone, Pressure;
  }

  // ---- The interleaved log ----

  /** A connection's own messages, from its acceptance on. */
  function Own(log: seq<Line>, id: nat): (own: seq<Timed>)
    ensures own != [] ==> own[0].message.Accept?
  {
    if log == [] then [] else
      var before, last := Own(log[..|log| - 1], id), log[|log| - 1];
      if last.parsed.None? || last.parsed.value.0 != id || (before == [] && !last.parsed.value.1.Accept?) then before
      else before + [Timed(last.parsed.value.1, last.now)]
  }

  /** The connections accepted, in order. */
  function Accepted(log: seq<Line>): seq<nat> {
    if log == [] then [] else
      var before, last := Accepted(log[..|log| - 1]), log[|log| - 1];
      if last.parsed.Some? && last.parsed.value.1.Accept? then before + [last.parsed.value.0] else before
  }

  function Bytes(log: seq<Line>): nat {
    if log == [] then 0 else Bytes(log[..|log| - 1]) + log[|log| - 1].length
  }

  /** The whole log is within its budgets: this decides failure, in whatever order lines arrive. */
  ghost predicate WithinBudget(log: seq<Line>) {
    && (forall i :: 0 <= i < |log| ==> log[i].length <= MAX_LINE) && Bytes(log) <= MAX_TOTAL
    && Distinct(Accepted(log)) && |Accepted(log)| <= MAX_CONNECTIONS
  }

  ghost predicate Demultiplexed(log: seq<Line>, connections: map<nat, Connection>) {
    forall id {:trigger Own(log, id)} ::
      (id in connections <==> Own(log, id) != []) && (id in connections ==> connections[id] == Alone(Own(log, id)))
  }

  ghost predicate Inventoried(log: seq<Line>, connections: map<nat, Connection>) {
    && (forall id :: id in connections <==> id in Accepted(log))
    && |connections| == |Accepted(log)| && Distinct(Accepted(log)) && |Accepted(log)| <= MAX_CONNECTIONS
  }

  class Evidence {
    var connections: map<nat, Connection>
    var bytes: nat
    var failure: Option<Failure>
    ghost var log: seq<Line>

    /** Without a failure, every connection is as if its own lines had been read alone. */
    ghost predicate Valid()
      reads this
    {
      && bytes == Bytes(log) && (failure.None? <==> WithinBudget(log))
      && (failure.None? ==> Demultiplexed(log, connections) && Inventoried(log, connections))
    }

    /** This is the state of an accepted connection, as its own lines alone leave it. */
    ghost predicate Observed(c: Connection)
      reads this
    {
      exists id :: id in connections && Own(log, id) != [] && c == Alone(Own(log, id))
    }

    constructor ()
      ensures Valid() && log == [] && failure.None?
    {
      connections, bytes, failure, log := map[], 0, None, [];
    }

    method Consume(line: Line)
      requires Valid()
      modifies this
      ensures Valid() && log == old(log) + [line]
      ensures old(failure).Some? ==> failure.Some? && connections == old(connections)
      ensures bytes == old(bytes) + line.length
      ensures failure ==
              (if line.length > 8192 || bytes > 8_388_608 then Some(ByteBudget)
               else if old(failure).None? && line.parsed.Some? && line.parsed.value.1.Accept?
                       && (|old(connections)| >= 64 || line.parsed.value.0 in old(connections)) then Some(Inventory)
               else old(failure))
      ensures failure.None? && line.parsed.Some? && line.parsed.value.1.Accept? ==>
        connections == old(connections)[line.parsed.value.0 :=
                                          Connection(line.parsed.value.1.port, 0, 0, false, None, None, None)]
      ensures line.parsed.None? || (!line.parsed.value.1.Accept? && line.parsed.value.0 !in old(connections)) ==>
        connections == old(connections)
      ensures connections != old(connections) ==>
        old(connections).Keys <= connections.Keys
        && forall id :: id in old(connections) && id != line.parsed.value.0 ==> connections[id] == old(connections)[id]
    {
      hide WithinBudget, Demultiplexed, Inventoried;
      LogGrows(log, line);
      bytes := bytes + line.length;
      if line.length > MAX_LINE || bytes > MAX_TOTAL { failure := Some(ByteBudget); }
      log := log + [line];
      if failure.Some? { return; }
      if line.parsed.None? {
        Unrelated(old(log), line, connections);
        return;
      }
      var (id, message) := line.parsed.value;
      if message.Accept? {
        AcceptDecides(old(log), line, connections);
        if |connections| >= MAX_CONNECTIONS || id in connections {
          failure := Some(Inventory);
          return;
        }
        Opened(old(log), line, connections);
        connections := connections[id := Fresh(message.port)];
        return;
      }
      Unopened(old(log), line, connections);
      if id !in connections { return; }
      Stepped(old(log), line, connections);
      connections := connections[id := Step(connections[id], Timed(message, line.now))];
    }

    /** The one connection from a client port; two of them are an error, as is any failure. */
    method Snapshot(port: nat) returns (ok: bool, found: Option<Connection>)
      requires Valid()
      ensures ok <==> failure.None? && forall a, b ::
        a in connections && b in connections && connections[a].port == connections[b].port == port ==> a == b
      ensures ok && found.None? ==> forall id :: id in connections ==> connections[id].port != port
      ensures ok && found.Some? ==> found.value.port == port && Observed(found.value)
    {
      if failure.Some? { return false, None; }
      var matching := set id | id in connections && connections[id].port == port;
      if matching == {} {
        assert forall a :: a in connections ==> a !in matching;
        return true, None;
      }
      var id :| id in matching;
      if matching != {id} {
        assert exists b :: b in matching && b != id by { assert matching - {id} != {}; }
        return false, None;
      }
      assert forall a :: a in connections && connections[a].port == port ==> a in matching;
      assert Own(log, id) != [];
      return true, Some(connections[id]);
    }
  }

  lemma LogGrows(log: seq<Line>, line: Line)
    ensures Bytes(log + [line]) == Bytes(log) + line.length
    ensures WithinBudget(log + [line]) <==>
            WithinBudget(log) && line.length <= MAX_LINE && Bytes(log) + line.length <= MAX_TOTAL
            && (line.parsed.Some? && line.parsed.value.1.Accept? ==>
                  line.parsed.value.0 !in Accepted(log) && |Accepted(log)| < MAX_CONNECTIONS)
  {
    var grown := log + [line];
    assert grown[..|grown| - 1] == log;
    assert (forall i :: 0 <= i < |grown| ==> grown[i].length <= MAX_LINE) <==>
      (forall i :: 0 <= i < |log| ==> log[i].length <= MAX_LINE) && line.length <= MAX_LINE by {
      assert grown[|log|] == line;
      assert forall i :: 0 <= i < |log| ==> grown[i] == log[i];
    }
    if line.parsed.Some? && line.parsed.value.1.Accept? { DistinctSnoc(Accepted(log), line.parsed.value.0); }
    hide Distinct;
  }

  lemma Unrelated(log: seq<Line>, line: Line, connections: map<nat, Connection>)
    requires Demultiplexed(log, connections) && Inventoried(log, connections) && line.parsed.None?
    ensures Demultiplexed(log + [line], connections) && Inventoried(log + [line], connections)
  {
  }

  lemma Unopened(log: seq<Line>, line: Line, connections: map<nat, Connection>)
    requires Demultiplexed(log, connections) && Inventoried(log, connections) && line.parsed.Some?
    requires !line.parsed.value.1.Accept?
    ensures Inventoried(log + [line], connections)
    ensures line.parsed.value.0 !in connections ==> Demultiplexed(log + [line], connections)
  {
  }

  lemma AcceptDecides(log: seq<Line>, line: Line, connections: map<nat, Connection>)
    requires Inventoried(log, connections) && line.parsed.Some?
    ensures |connections| >= MAX_CONNECTIONS || line.parsed.value.0 in connections <==>
            line.parsed.value.0 in Accepted(log) || |Accepted(log)| >= MAX_CONNECTIONS
  {
  }

  lemma Opened(log: seq<Line>, line: Line, connections: map<nat, Connection>)
    requires Demultiplexed(log, connections) && Inventoried(log, connections) && line.parsed.Some?
    requires line.parsed.value.1.Accept?
    requires |connections| < MAX_CONNECTIONS && line.parsed.value.0 !in connections
    ensures var after := connections[line.parsed.value.0 := Fresh(line.parsed.value.1.port)];
            Demultiplexed(log + [line], after) && Inventoried(log + [line], after)
  {
  }

  lemma Stepped(log: seq<Line>, line: Line, connections: map<nat, Connection>)
    requires Demultiplexed(log, connections) && line.parsed.Some? && !line.parsed.value.1.Accept?
    requires line.parsed.value.0 in connections
    requires Inventoried(log + [line], connections)
    ensures var after := connections[line.parsed.value.0 :=
                                       Step(connections[line.parsed.value.0], Timed(line.parsed.value.1, line.now))];
            Demultiplexed(log + [line], after) && Inventoried(log + [line], after)
  {
  }

  /** However the lines of a connection are interleaved with others', it ends in the same state. */
  lemma InterleavingIsIrrelevant(a: Evidence, b: Evidence, id: nat)
    requires a.Valid() && b.Valid() && a.failure.None? && b.failure.None? && Own(a.log, id) == Own(b.log, id)
    ensures id in a.connections <==> id in b.connections
    ensures id in a.connections ==> a.connections[id] == b.connections[id]
  {
    hide Own, Alone, Inventoried, WithinBudget;
  }

  // ---- What is read off the whole log ----

  ghost predicate AcceptAt(log: seq<Line>, i: int, id: nat) {
    0 <= i < |log| && log[i].parsed.Some? && log[i].parsed.value.0 == id && log[i].parsed.value.1.Accept?
  }

  /** Where the connections of a log were accepted. */
  lemma {:induction false} AcceptedAt(log: seq<Line>) returns (places: seq<int>)
    ensures |places| == |Accepted(log)|
    ensures forall k :: 0 <= k < |places| ==> AcceptAt(log, places[k], Accepted(log)[k])
    ensures forall k, l :: 0 <= k < l < |places| ==> places[k] < places[l]
    ensures forall i, id :: AcceptAt(log, i, id) ==> i in places
  {
    if log == [] {
      places := [];
    } else {
      var n := |log| - 1;
      places := AcceptedAt(log[..n]);
      forall i, id | AcceptAt(log, i, id) && i < n ensures i in places { assert AcceptAt(log[..n], i, id); }
      forall k | 0 <= k < |places| ensures AcceptAt(log, places[k], Accepted(log[..n])[k]) {
        assert AcceptAt(log[..n], places[k], Accepted(log[..n])[k]);
      }
      if log[n].parsed.Some? && log[n].parsed.value.1.Accept? { places := places + [n]; }
    }
  }

  ghost predicate NoneTwice(log: seq<Line>) {
    forall i, j, id :: AcceptAt(log, i, id) && AcceptAt(log, j, id) ==> i == j
  }

  ghost function Acceptances(log: seq<Line>): set<int> {
    set i | 0 <= i < |log| && log[i].parsed.Some? && AcceptAt(log, i, log[i].parsed.value.0)
  }

  lemma {:induction false} Elements(s: seq<int>, members: set<int>)
    requires forall k, l :: 0 <= k < l < |s| ==> s[k] < s[l]
    requires forall i :: i in members <==> i in s
    ensures |s| == |members|
  {
    if s != [] {
      var n := |s| - 1;
      assert s == s[..n] + [s[n]];
      Elements(s[..n], members - {s[n]});
    } else {
      assert forall i :: i in members ==> i in s;
      assert members == {};
    }
  }

  /** What a log may hold: short lines, eight megabytes in all, and 64 connections, none of them accepted twice. */
  lemma BudgetIff(log: seq<Line>)
    ensures WithinBudget(log) <==>
            && (forall i :: 0 <= i < |log| ==> log[i].length <= 8192) && Bytes(log) <= 8_388_608
            && NoneTwice(log) && |Acceptances(log)| <= 64
  {
    var places := AcceptedAt(log);
    var ids := Accepted(log);
    forall i ensures i in Acceptances(log) <==> i in places {
      if i in Acceptances(log) { assert AcceptAt(log, i, log[i].parsed.value.0); }
    }
    Elements(places, Acceptances(log));
    hide Accepted, Bytes, Acceptances;
    if NoneTwice(log) {
      forall k, l | 0 <= k < l < |ids| ensures ids[k] != ids[l] {
        assert AcceptAt(log, places[k], ids[k]) && AcceptAt(log, places[l], ids[l]);
      }
    }
    if Distinct(ids) {
      forall i, j, id | AcceptAt(log, i, id) && AcceptAt(log, j, id) ensures i == j {
        var k :| 0 <= k < |places| && places[k] == i;
        var l :| 0 <= l < |places| && places[l] == j;
        assert ids[k] == id && ids[l] == id;
      }
    }
  }

  /** A message of the connection's own: of its number, not before its acceptance. */
  ghost predicate OwnAt(log: seq<Line>, id: nat, i: int) {
    0 <= i < |log| && log[i].parsed.Some? && log[i].parsed.value.0 == id && exists j :: j <= i && AcceptAt(log, j, id)
  }

  /** A connection's own messages are exactly these, each once and in order. */
  lemma {:induction false} OwnIs(log: seq<Line>, id: nat) returns (places: seq<int>)
    ensures |places| == |Own(log, id)|
    ensures forall k, l :: 0 <= k < l < |places| ==> places[k] < places[l]
    ensures forall i :: i in places <==> OwnAt(log, id, i)
    ensures forall k :: 0 <= k < |places| ==>
              OwnAt(log, id, places[k])
              && Own(log, id)[k] == Timed(log[places[k]].parsed.value.1, log[places[k]].now)
  {
    if log == [] {
      places := [];
    } else {
      var n := |log| - 1;
      places := OwnIs(log[..n], id);
      forall j ensures AcceptAt(log[..n], j, id) <==> j < n && AcceptAt(log, j, id) { }
      forall i | i < n ensures OwnAt(log, id, i) <==> OwnAt(log[..n], id, i) { }
      assert Own(log[..n], id) != [] <==> exists j :: j < n && AcceptAt(log, j, id) by {
        if Own(log[..n], id) != [] { assert OwnAt(log[..n], id, places[0]); }
        if j :| j < n && AcceptAt(log, j, id) { assert OwnAt(log[..n], id, j); }
      }
      hide Own;
      places := OwnGrows(log, id, places);
    }
  }

  lemma OwnGrows(log: seq<Line>, id: nat, before: seq<int>) returns (places: seq<int>)
    requires log != []
    requires var n := |log| - 1; Own(log[..n], id) != [] <==> exists j :: j < n && AcceptAt(log, j, id)
    requires |before| == |Own(log[..|log| - 1], id)|
    requires forall k, l :: 0 <= k < l < |before| ==> before[k] < before[l]
    requires forall i :: i in before <==> i < |log| - 1 && OwnAt(log, id, i)
    requires forall k :: 0 <= k < |before| ==>
               OwnAt(log, id, before[k])
               && Own(log[..|log| - 1], id)[k] == Timed(log[before[k]].parsed.value.1, log[before[k]].now)
    ensures |places| == |Own(log, id)|
    ensures forall k, l :: 0 <= k < l < |places| ==> places[k] < places[l]
    ensures forall i :: i in places <==> OwnAt(log, id, i)
    ensures forall k :: 0 <= k < |places| ==>
              OwnAt(log, id, places[k])
              && Own(log, id)[k] == Timed(log[places[k]].parsed.value.1, log[places[k]].now)
  {
    var n := |log| - 1;
    OwnNext(log, id);
    hide Own, OwnAt;
    forall k | 0 <= k < |before| ensures before[k] < n { assert before[k] in before; }
    places := if OwnAt(log, id, n) then before + [n] else before;
  }

  lemma OwnNext(log: seq<Line>, id: nat)
    requires log != []
    requires var n := |log| - 1; Own(log[..n], id) != [] <==> exists j :: j < n && AcceptAt(log, j, id)
    ensures var n := |log| - 1;
            && (OwnAt(log, id, n) ==>
                  Own(log, id) == Own(log[..n], id) + [Timed(log[n].parsed.value.1, log[n].now)])
            && (!OwnAt(log, id, n) ==> Own(log, id) == Own(log[..n], id))
  {
    var n := |log| - 1;
    assert (exists j :: j <= n && AcceptAt(log, j, id)) <==>
      (exists j :: j < n && AcceptAt(log, j, id)) || AcceptAt(log, n, id);
  }
}
