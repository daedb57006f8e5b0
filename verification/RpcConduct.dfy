/**
 What a session can be used for (scripts/pi_lab_experiment.py:117-156,
                                 scripts/pi_lab_session.py:325-374): over all runs,
 which requests are begun and answered; and exactly which lists of calls some run returns.
 */
module RpcConduct {
  import opened Aggregates
  import opened Rpc
  import opened RpcDelivery

  // ---- Orderly calls ----

  /** A target has been prepared and not stopped since. */
  ghost predicate LastPrepares(codec: Codec, calls: seq<Served>) {
    exists k :: 0 <= k < |calls| && codec.op(calls[k].request) == PrepareLoad
                && forall j :: k < j < |calls| ==> codec.op(calls[j].request) != StopLoad
  }

  /** Both lines fit and are clean, the reply is a success, and this kind of node answers the operation. */
  ghost predicate Answered(codec: Codec, call: Served) {
    && NEWLINE !in call.request && |call.request| < 65536 && NEWLINE !in call.reply && |call.reply| < 65536
    && codec.accepted(call.reply) && (codec.clockOnly ==> codec.op(call.request) == ReadClock)
  }

  ghost predicate Measures(codec: Codec, calls: seq<Served>) {
    exists i :: 0 <= i < |calls| && codec.op(calls[i].request) == Measure
  }

  /** The call may follow the earlier ones. */
  ghost predicate MayFollow(codec: Codec, calls: seq<Served>, call: Served) {
    var op := codec.op(call.request);
    && Answered(codec, call)
    && (forall i :: 0 <= i < |calls| ==> codec.op(calls[i].request) != Stop)
    && (op == Measure ==> LastPrepares(codec, calls) && !Measures(codec, calls))
    && (op.Mutation? ==> forall i :: 0 <= i < |calls| ==> codec.op(calls[i].request) != op)
  }

  /**
   Within the node's allowance; nothing after a stop; a measurement once, on a prepared target; each mutation identity
   once.
   */
  ghost predicate Orderly(codec: Codec, calls: seq<Served>) {
    && |calls| <= (if codec.clockOnly then 16 else 1024)
    && forall i :: 0 <= i < |calls| ==> MayFollow(codec, calls[..i], calls[i])
  }

  // ---- What every run keeps besides ----

  ghost predicate BegunWell(begun: seq<Line>, returned: seq<Served>, codec: Codec) {
    forall i :: 0 <= i < |begun| ==>
      && NEWLINE !in begun[i] && |begun[i]| < 65536 && (codec.clockOnly ==> codec.op(begun[i]) == ReadClock)
      && (codec.op(begun[i]) == Measure ==> i <= |returned| && LastPrepares(codec, returned[..i]))
  }

  ghost predicate AttemptedIs(begun: seq<Line>, attempted: bool, codec: Codec) {
    attempted <==> exists i :: 0 <= i < |begun| && codec.op(begun[i]) == Measure
  }

  ghost predicate ServedWell(served: seq<Served>, codec: Codec) {
    && (forall i :: 0 <= i < |served| ==> Replied(codec, served[i]))
    && (forall i :: 0 <= i < |served| - 1 ==> codec.op(served[i].request) != Stop)
  }

  ghost predicate Replied(codec: Codec, call: Served) {
    && NEWLINE !in call.reply && |call.reply| < 65536 && codec.accepted(call.reply)
    && (codec.clockOnly ==> codec.op(call.request) == ReadClock)
  }

  ghost predicate Spends(operations: set<nat>, served: seq<Served>, codec: Codec) {
    forall id :: id in operations ==> exists i :: 0 <= i < |served| && codec.op(served[i].request) == Mutation(id)
  }

  /** While the node may still answer, it has not been told to stop and has spent only what it answered. */
  ghost predicate Lively(node: Node, operations: set<nat>, served: seq<Served>, codec: Codec) {
    node.Waiting? || (node.Emitting? && !node.last) ==>
      && (forall i :: 0 <= i < |served| ==> codec.op(served[i].request) != Stop)
      && Spends(operations, served, codec)
  }

  ghost predicate Conducted(s: State, codec: Codec) {
    && BegunWell(s.begun, s.returned, codec) && (s.poisoned || AttemptedIs(s.begun, s.attempted, codec))
    && (s.prepared <==> LastPrepares(codec, s.returned))
    && ServedWell(s.served, codec) && Lively(s.node, s.operations, s.served, codec)
  }

  lemma PreparesNext(codec: Codec, calls: seq<Served>, call: Served)
    ensures LastPrepares(codec, calls + [call]) <==>
      codec.op(call.request) == PrepareLoad || (LastPrepares(codec, calls) && codec.op(call.request) != StopLoad)
  {
    var all := calls + [call];
    if LastPrepares(codec, calls) && codec.op(call.request) != StopLoad {
      var k :| 0 <= k < |calls| && codec.op(calls[k].request) == PrepareLoad
               && forall j :: k < j < |calls| ==> codec.op(calls[j].request) != StopLoad;
      assert codec.op(all[k].request) == PrepareLoad;
    }
    if codec.op(call.request) == PrepareLoad { assert all[|calls|] == call; }
    if k :| 0 <= k < |all| && codec.op(all[k].request) == PrepareLoad
            && forall j :: k < j < |all| ==> codec.op(all[j].request) != StopLoad {
      if k < |calls| {
        assert codec.op(all[|calls|].request) != StopLoad;
        forall j | k < j < |calls| ensures codec.op(calls[j].request) != StopLoad { assert all[j] == calls[j]; }
        assert calls[k] == all[k];
      }
    }
  }

  // ---- The client ----

  lemma BegunStays(begun: seq<Line>, returned: seq<Served>, more: seq<Served>, codec: Codec)
    requires BegunWell(begun, returned, codec) && returned <= more
    ensures BegunWell(begun, more, codec)
  {
    hide LastPrepares;
    forall i | 0 <= i < |begun| && codec.op(begun[i]) == Measure ensures returned[..i] == more[..i] { }
  }

  lemma CallConducts(s: State, codec: Codec, text: Line)
    requires Conducted(s, codec) && Kept(s, codec)
    ensures Conducted(StepCall(s, codec, text), codec)
  {
    hide LastPrepares, ServedWell, Lively, InputKept, OutputKept, MeasureKept, MutationsKept, Frames;
    if s.client == Idle && !s.poisoned {
      assert |s.begun| == |s.returned|;
      hide Kept;
      var t := StepCall(s, codec, text);
      if t.begun != s.begun {
        assert t.begun == s.begun + [text];
        assert s.returned[..|s.begun|] == s.returned;
        AttemptsNext(s.begun, text, s.attempted, codec);
      }
    }
  }

  lemma AttemptsNext(begun: seq<Line>, text: Line, attempted: bool, codec: Codec)
    requires AttemptedIs(begun, attempted, codec)
    ensures AttemptedIs(begun + [text], attempted || codec.op(text) == Measure, codec)
  {
    var all := begun + [text];
    assert all[|begun|] == text;
    if i :| 0 <= i < |begun| && codec.op(begun[i]) == Measure { assert all[i] == begun[i]; }
  }

  lemma ReadConducts(s: State, codec: Codec, valid: bool)
    requires Conducted(s, codec)
    ensures Conducted(StepRead(s, codec, valid), codec)
  {
    hide LastPrepares, BegunWell, ServedWell, Lively, AttemptedIs;
    var t := StepRead(s, codec, valid);
    if s.client.Reading? && t.returned != s.returned {
      var call := Served(s.client.text, s.client.got);
      assert t.returned == s.returned + [call];
      BegunStays(s.begun, s.returned, t.returned, codec);
      PreparesNext(codec, s.returned, call);
    }
  }

  // ---- The node ----

  lemma AnswersConduct(s: State, codec: Codec, request: Line, reply: Line, op: Op)
    requires ServedWell(s.served, codec) && Lively(s.node, s.operations, s.served, codec) && s.node.Waiting?
    requires op == codec.op(request) && Replied(codec, Served(request, reply))
    ensures var t := Answer(Spend(s, op), reply, op == Stop).(served := s.served + [Served(request, reply)]);
      ServedWell(t.served, codec) && Lively(t.node, t.operations, t.served, codec)
  {
    var more := s.served + [Served(request, reply)];
    assert more[|s.served|] == Served(request, reply);
    forall id | id in s.operations
      ensures exists i :: 0 <= i < |more| && codec.op(more[i].request) == Mutation(id) {
      var i :| 0 <= i < |s.served| && codec.op(s.served[i].request) == Mutation(id);
      assert more[i] == s.served[i];
    }
  }

  lemma NodeConducts(s: State, codec: Codec, event: Event)
    requires Conducted(s, codec) && ByNode(event)
    ensures Conducted(Step(s, codec, event), codec)
  {
    NodeStepLeavesClient(s, codec, event);
    NodeServesWell(s, codec, event);
    hide Step, BegunWell, AttemptedIs, LastPrepares, ServedWell, Lively;
  }

  lemma NodeServesWell(s: State, codec: Codec, event: Event)
    requires Conducted(s, codec) && ByNode(event)
    ensures var t := Step(s, codec, event); ServedWell(t.served, codec) && Lively(t.node, t.operations, t.served, codec)
  {
    hide BegunWell, AttemptedIs, LastPrepares, ServedWell;
    match event
    case NodeByte(outcome) =>
      if s.node.Waiting? && s.toNode != [] {
        var taken := s.(toNode := s.toNode[1..], consumed := s.consumed + [s.toNode[0]]);
        hide Lively;
        HandleServesWell(taken, codec, s.node.got, outcome);
        WaitsWell(s.node, s.node.got + [s.toNode[0]], s.operations, s.served, codec);
        hide Handle;
      }
    case NodeFails(text) =>
    case NodeEmits(n) =>
    case NodeDies =>
  }

  lemma WaitsWell(node: Node, got: seq<Byte>, operations: set<nat>, served: seq<Served>, codec: Codec)
    requires node.Waiting? && Lively(node, operations, served, codec)
    ensures Lively(Waiting(got), operations, served, codec)
  {
  }

  lemma HandleServesWell(s: State, codec: Codec, request: Line, outcome: Outcome)
    requires ServedWell(s.served, codec) && Lively(s.node, s.operations, s.served, codec) && s.node.Waiting?
    ensures var t := Handle(s, codec, request, outcome);
      ServedWell(t.served, codec) && Lively(t.node, t.operations, t.served, codec)
  {
    var op := codec.op(request);
    if outcome.Replies? && Replied(codec, Served(request, outcome.text)) {
      AnswersConduct(s, codec, request, outcome.text, op);
    }
    hide ServedWell, Spends;
  }

  // ---- Runs ----

  lemma StepConducts(s: State, codec: Codec, event: Event)
    requires Conducted(s, codec) && Kept(s, codec)
    ensures Conducted(Step(s, codec, event), codec)
  {
    hide BegunWell, AttemptedIs, LastPrepares, ServedWell, Lively, Kept, StepCall, StepRead, StepNodeByte, StepEmit;
    match event
    case Call(text) => CallConducts(s, codec, text);
    case Write(n) =>
    case ReadByte(valid) => ReadConducts(s, codec, valid);
    case ClientFails =>
    case Close =>
    case NodeByte(_) => NodeConducts(s, codec, event);
    case NodeFails(_) => NodeConducts(s, codec, event);
    case NodeEmits(_) => NodeConducts(s, codec, event);
    case NodeDies => NodeConducts(s, codec, event);
  }

  lemma {:induction false} RunConducts(codec: Codec, events: seq<Event>)
    ensures Conducted(Run(INITIAL, codec, events), codec)
  {
    hide Step, Kept;
    if events == [] {
    } else {
      var n := |events| - 1;
      RunConducts(codec, events[..n]);
      RunKeeps(codec, events[..n]);
      hide Conducted;
      StepConducts(Run(INITIAL, codec, events[..n]), codec, events[n]);
    }
  }

  /**
   Over all runs: what is begun is clean, fits, and is a clock read if that is all the node answers; and a measurement
   is begun only when the last call returned that prepares or stops a target prepared one.
   */
  lemma OnlyPreparedIsMeasured(codec: Codec, events: seq<Event>, i: nat)
    requires i < |Run(INITIAL, codec, events).begun|
    ensures var s := Run(INITIAL, codec, events);
      && NEWLINE !in s.begun[i] && |s.begun[i]| < 65536 && (codec.clockOnly ==> codec.op(s.begun[i]) == ReadClock)
      && (codec.op(s.begun[i]) == Measure ==> i <= |s.returned| && LastPrepares(codec, s.returned[..i]))
  {
    RunConducts(codec, events);
    hide Run, LastPrepares;
  }

  lemma ClosedStep(s: State, codec: Codec, event: Event)
    requires s.closed
    ensures Step(s, codec, event).closed && Step(s, codec, event).begun == s.begun
  {
    if ByNode(event) {
      NodeStepLeavesClient(s, codec, event);
      hide Step;
    }
  }

  /** After a close nothing is begun. */
  lemma {:induction false} ClosedIsForever(s: State, codec: Codec, events: seq<Event>)
    requires s.closed
    ensures Run(s, codec, events).closed && Run(s, codec, events).begun == s.begun
  {
    hide Step;
    if events == [] {
    } else {
      var n := |events| - 1;
      ClosedIsForever(s, codec, events[..n]);
      ClosedStep(Run(s, codec, events[..n]), codec, events[n]);
    }
  }

  // ---- Which lists of calls return ----

  /** The client's and the node's marks say what the calls returned so far say. */
  ghost predicate Marked(s: State, codec: Codec) {
    && |s.served| == |s.returned| && (s.prepared <==> LastPrepares(codec, s.returned))
    && (s.attempted <==> Measures(codec, s.returned)) && Spends(s.operations, s.returned, codec)
  }

  lemma MarkedNext(s: State, t: State, codec: Codec, call: Served)
    requires Marked(s, codec) && t.returned == s.returned + [call] && |t.served| == |s.served| + 1
    requires t.prepared == PreparedBy(s, codec, call.request)
    requires t.attempted == (s.attempted || codec.op(call.request) == Measure)
    requires t.operations == Spent(s.operations, codec.op(call.request))
    ensures Marked(t, codec)
  {
    PreparesNext(codec, s.returned, call);
    MeasuresNext(codec, s.returned, call);
    SpendsNext(s.operations, s.returned, codec, call);
    hide LastPrepares, Measures, Spends, Spent;
  }

  lemma MeasuresNext(codec: Codec, calls: seq<Served>, call: Served)
    ensures Measures(codec, calls + [call]) <==> Measures(codec, calls) || codec.op(call.request) == Measure
  {
    var all := calls + [call];
    assert all[|calls|] == call;
    if i :| 0 <= i < |calls| && codec.op(calls[i].request) == Measure { assert all[i] == calls[i]; }
  }

  lemma SpendsNext(operations: set<nat>, calls: seq<Served>, codec: Codec, call: Served)
    requires Spends(operations, calls, codec)
    ensures Spends(Spent(operations, codec.op(call.request)), calls + [call], codec)
  {
    var all := calls + [call];
    assert all[|calls|] == call;
    forall id | id in operations ensures exists i :: 0 <= i < |all| && codec.op(all[i].request) == Mutation(id) {
      var i :| 0 <= i < |calls| && codec.op(calls[i].request) == Mutation(id);
      assert all[i] == calls[i];
    }
  }

  lemma FollowingIsAdmissible(s: State, codec: Codec, call: Served)
    requires Marked(s, codec) && MayFollow(codec, s.returned, call) && |s.served| < codec.Allowance()
    ensures Admissible(s, codec, call.request)
    ensures Clean(call.reply) && |call.reply| + 1 <= CAP && codec.accepted(call.reply)
  {
    hide LastPrepares, Measures;
  }

  /** Orderly calls chain: each returns its reply, in order. */
  lemma {:induction false} OrderlyCallsReturn(s: State, codec: Codec, calls: seq<Served>) returns (events: seq<Event>)
    requires Marked(s, codec) && Orderly(codec, s.returned + calls)
    requires calls != [] ==> AtRest(s)
    ensures Run(s, codec, events).returned == s.returned + calls
    decreases |calls|
  {
    hide Step, AtRest, Marked, Orderly, MayFollow, Admissible;
    if calls == [] {
      events := [];
      assert s.returned + calls == s.returned;
    } else {
      hide Run;
      Next(s.returned, codec, calls);
      assert |s.served| == |s.returned| by { MarkedLength(s, codec); }
      FollowingIsAdmissible(s, codec, calls[0]);
      var first := UndisturbedCallReturns(s, codec, calls[0].request, calls[0].reply);
      var t := Run(s, codec, first);
      MarkedNext(s, t, codec, calls[0]);
      assert t.returned + calls[1..] == s.returned + calls;
      hide Clean, PreparedBy, Spent;
      var rest := OrderlyCallsReturn(t, codec, calls[1..]);
      RunAfter(s, codec, first, rest);
      events := first + rest;
    }
  }

  lemma MarkedLength(s: State, codec: Codec)
    requires Marked(s, codec)
    ensures |s.served| == |s.returned|
  {
  }

  lemma Next(returned: seq<Served>, codec: Codec, calls: seq<Served>)
    requires calls != [] && Orderly(codec, returned + calls)
    ensures MayFollow(codec, returned, calls[0]) && |returned| < codec.Allowance()
    ensures |calls| > 1 ==> codec.op(calls[0].request) != Stop
  {
    var all, k := returned + calls, |returned|;
    assert all[..k] == returned && all[k] == calls[0];
    assert MayFollow(codec, all[..k], all[k]);
    if |calls| > 1 {
      assert MayFollow(codec, all[..k + 1], all[k + 1]);
      assert all[..k + 1][k] == calls[0];
    }
    hide LastPrepares, Measures, Answered;
  }

  lemma RestIsMarked(codec: Codec, past: seq<Event>)
    requires AtRest(Run(INITIAL, codec, past))
    ensures Marked(Run(INITIAL, codec, past), codec)
  {
    var s := Run(INITIAL, codec, past);
    RunConducts(codec, past);
    IdleHasNothingPending(codec, past);
    hide Run, LastPrepares, Spends, BegunWell, ServedWell;
    forall i: nat | i < |s.returned| ensures s.returned[i] == s.served[i] && s.returned[i].request == s.begun[i] {
      ReturnedRepliesArePaired(codec, past, i);
    }
    assert s.returned == s.served;
    assert s.attempted <==> Measures(codec, s.returned);
  }

  lemma ReturnedFollow(codec: Codec, events: seq<Event>, i: nat)
    requires i < |Run(INITIAL, codec, events).returned|
    ensures var calls := Run(INITIAL, codec, events).returned; MayFollow(codec, calls[..i], calls[i])
  {
    var s := Run(INITIAL, codec, events);
    forall k: nat | k < |s.returned|
      ensures k < |s.served| && k < |s.begun| && s.returned[k] == s.served[k] && s.returned[k].request == s.begun[k]
    {
      ReturnedRepliesArePaired(codec, events, k);
    }
    OnlyPreparedIsMeasured(codec, events, i);
    AtMostOneMeasurement(codec, events);
    RunConducts(codec, events);
    hide Run, LastPrepares, BegunWell, AttemptedIs, Lively;
    var calls := s.returned;
    assert Replied(codec, s.served[i]);
    forall k: nat | k < i ensures codec.op(calls[..i][k].request) != Stop {
      assert codec.op(s.served[k].request) != Stop;
    }
  }

  /** From any rest a session can reach: exactly the orderly continuations of what was returned can be returned. */
  lemma CallsReturnIff(codec: Codec, past: seq<Event>, calls: seq<Served>)
    requires AtRest(Run(INITIAL, codec, past))
    ensures var s := Run(INITIAL, codec, past);
      (exists events :: Run(s, codec, events).returned == s.returned + calls) <==>
      Orderly(codec, s.returned + calls)
  {
    var s := Run(INITIAL, codec, past);
    RestIsMarked(codec, past);
    hide Run, Marked, AtRest, MayFollow;
    if Orderly(codec, s.returned + calls) {
      var events := OrderlyCallsReturn(s, codec, calls);
    }
    if events :| Run(s, codec, events).returned == s.returned + calls {
      RunAfter(INITIAL, codec, past, events);
      var t := Run(INITIAL, codec, past + events);
      forall i: nat | i < |t.returned| ensures MayFollow(codec, t.returned[..i], t.returned[i]) {
        ReturnedFollow(codec, past + events, i);
      }
      ServedWithinAllowance(codec, past + events);
      if |t.returned| > 0 { ReturnedRepliesArePaired(codec, past + events, |t.returned| - 1); }
    }
  }

  /** So a preparation and then a measurement return whenever no measurement was tried and two commands are left. */
  lemma PreparedMeasurementReturns(codec: Codec, past: seq<Event>, prepare: Served, measure: Served)
    returns (events: seq<Event>)
    requires AtRest(Run(INITIAL, codec, past)) && !Run(INITIAL, codec, past).attempted && !codec.clockOnly
    requires |Run(INITIAL, codec, past).returned| + 2 <= 1024
    requires Answered(codec, prepare) && codec.op(prepare.request) == PrepareLoad
    requires Answered(codec, measure) && codec.op(measure.request) == Measure
    ensures var s := Run(INITIAL, codec, past);
      Run(s, codec, events).returned == s.returned + [prepare, measure]
  {
    var s := Run(INITIAL, codec, past);
    RestIsMarked(codec, past);
    RunsToRest(codec, past);
    hide Run, AtRest, Answered;
    var r, all := s.returned, s.returned + [prepare, measure];
    assert all[..|r|] == r && all[|r|] == prepare && all[|r| + 1] == measure && all[..|r| + 1] == r + [prepare];
    PreparesNext(codec, r, prepare);
    MeasuresNext(codec, r, prepare);
    NoStopYet(codec, past);
    hide LastPrepares, Measures;
    forall i | 0 <= i < |all| ensures MayFollow(codec, all[..i], all[i]) {
      if i < |r| { assert all[..i] == r[..i] && all[i] == r[i]; }
    }
    events := OrderlyCallsReturn(s, codec, [prepare, measure]);
  }

  lemma NoStopYet(codec: Codec, past: seq<Event>)
    requires AtRest(Run(INITIAL, codec, past))
    ensures var calls := Run(INITIAL, codec, past).returned;
      forall i :: 0 <= i < |calls| ==> codec.op(calls[i].request) != Stop
  {
    var s := Run(INITIAL, codec, past);
    RunConducts(codec, past);
    hide Run, LastPrepares, BegunWell, AttemptedIs, ServedWell;
    forall i: nat | i < |s.returned| ensures i < |s.served| && s.returned[i] == s.served[i] {
      ReturnedRepliesArePaired(codec, past, i);
    }
  }

  lemma RunsToRest(codec: Codec, past: seq<Event>)
    ensures var calls := Run(INITIAL, codec, past).returned;
      forall i :: 0 <= i < |calls| ==> MayFollow(codec, calls[..i], calls[i])
  {
    var calls := Run(INITIAL, codec, past).returned;
    hide Run, MayFollow;
    forall i: nat | i < |calls| ensures MayFollow(codec, calls[..i], calls[i]) { ReturnedFollow(codec, past, i); }
  }
}
