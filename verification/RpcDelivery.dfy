/** An undisturbed call is answered: the schedule in which every byte arrives (see Rpc). */
module RpcDelivery {
  import opened Aggregates
  import opened Rpc

  lemma {:induction false} RunAfter(s: State, codec: Codec, a: seq<Event>, b: seq<Event>)
    ensures Run(s, codec, a + b) == Run(Run(s, codec, a), codec, b)
  {
    hide Step;
    if b == [] {
      assert a + b == a;
    } else {
      var n := |a + b|;
      assert (a + b)[..n - 1] == a + b[..|b| - 1];
      RunAfter(s, codec, a, b[..|b| - 1]);
    }
  }

  lemma RunOne(s: State, codec: Codec, event: Event)
    ensures Run(s, codec, [event]) == Step(s, codec, event)
  {
  }

  /** One request byte that does not end the line is kept by the node. */
  lemma ByteHeard(s: State, codec: Codec, outcome: Outcome)
    requires s.node.Waiting? && s.toNode != [] && s.toNode[0] != NEWLINE && |s.node.got| < CAP
    requires |s.served| < codec.Allowance()
    ensures Step(s, codec, NodeByte(outcome)) ==
            s.(node := Waiting(s.node.got + [s.toNode[0]]), toNode := s.toNode[1..],
               consumed := s.consumed + [s.toNode[0]])
  {
  }

  /** The node takes the first part of what is on the wire, byte by byte. */
  lemma NodeTakes(s: State, codec: Codec, text: Line, after: seq<Byte>, outcome: Outcome) returns (events: seq<Event>)
    requires s.node.Waiting? && s.toNode == text + after && Clean(text) && |s.node.got| + |text| <= CAP
    requires |s.served| < codec.Allowance()
    ensures Run(s, codec, events) ==
      s.(node := Waiting(s.node.got + text), toNode := after, consumed := s.consumed + text)
    decreases |text|
  {
    hide Handle;
    if text == [] {
      events := [];
      assert s.node.got + text == s.node.got && s.consumed + text == s.consumed && text + after == after;
      assert s == s.(node := Waiting(s.node.got + text), toNode := after, consumed := s.consumed + text);
    } else {
      var first := NodeByte(outcome);
      assert (text + after)[0] == text[0] && (text + after)[1..] == text[1..] + after;
      ByteHeard(s, codec, outcome);
      hide Run, Step;
      var next := Step(s, codec, first);
      var rest := NodeTakes(next, codec, text[1..], after, outcome);
      events := [first] + rest;
      RunOne(s, codec, first);
      RunAfter(s, codec, [first], rest);
      assert s.node.got + [text[0]] + text[1..] == s.node.got + text;
      assert s.consumed + [text[0]] + text[1..] == s.consumed + text;
    }
  }

  /** Whether a target is prepared once this request has been answered. */
  predicate PreparedBy(s: State, codec: Codec, request: Line) {
    codec.op(request) == PrepareLoad || (s.prepared && codec.op(request) != StopLoad)
  }

  /** The reply's bytes are taken by the client, and its newline completes the call. */
  lemma ClientTakes(s: State, codec: Codec, text: Line) returns (events: seq<Event>)
    requires s.client.Reading? && s.toClient == text + [NEWLINE] && Clean(text) && |s.client.got| + |text| <= CAP
    requires codec.accepted(s.client.got + text)
    ensures var t := Run(s, codec, events);
            && t.client == Idle && t.poisoned == s.poisoned && t.closed == s.closed && t.toClient == []
            && t.served == s.served && t.operations == s.operations && t.toNode == s.toNode && t.node == s.node
            && t.returned == s.returned + [Served(s.client.text, s.client.got + text)]
            && t.attempted == s.attempted && t.prepared == PreparedBy(s, codec, s.client.text)
    decreases |text|
  {
    var first := ReadByte(true);
    RunOne(s, codec, first);
    hide Run;
    if text == [] {
      events := [first];
      assert s.client.got + text == s.client.got;
    } else {
      assert (text + [NEWLINE])[0] == text[0] && (text + [NEWLINE])[1..] == text[1..] + [NEWLINE];
      var next := Step(s, codec, first);
      assert next.client == Reading(s.client.text, s.client.got + [text[0]]);
      assert s.client.got + [text[0]] + text[1..] == s.client.got + text;
      hide Step;
      var rest := ClientTakes(next, codec, text[1..]);
      events := [first] + rest;
      RunAfter(s, codec, [first], rest);
    }
  }

  /** Both ends at rest, nothing in either pipe. */
  ghost predicate AtRest(s: State) {
    s.client == Idle && !s.poisoned && !s.closed && s.node == Waiting([]) && s.toNode == [] && s.toClient == []
  }

  /** A request the client may begin now, which the node has not refused in advance. */
  ghost predicate Admissible(s: State, codec: Codec, text: Line) {
    var op := codec.op(text);
    && Clean(text) && |text| + 1 <= CAP && |s.served| < codec.Allowance()
    && codec.Answerable(op) && (op == Measure ==> s.prepared && !s.attempted)
    && (op.Mutation? ==> op.id !in s.operations)
  }

  /** The identities used up once an operation has run. */
  function Spent(operations: set<nat>, op: Op): set<nat> { if op.Mutation? then operations + {op.id} else operations }

  lemma Requested(s: State, codec: Codec, text: Line, reply: Line) returns (events: seq<Event>)
    requires AtRest(s) && Admissible(s, codec, text)
    requires Clean(reply) && |reply| + 1 <= CAP && codec.accepted(reply)
    ensures var t := Run(s, codec, events);
            && t.client == Reading(text, []) && !t.poisoned && !t.closed && t.returned == s.returned && t.toNode == []
              && t.toClient == []
            && |t.served| == |s.served| + 1 && t.operations == Spent(s.operations, codec.op(text))
            && t.attempted == (s.attempted || codec.op(text) == Measure) && t.prepared == s.prepared
            && t.node == Emitting(reply + [NEWLINE], codec.op(text) == Stop)
  {
    var call, write, answer := Call(text), Write(|text| + 1), NodeByte(Replies(reply));
    var begun := Step(s, codec, call);
    RunOne(s, codec, call);
    assert begun.client == Writing(text, text + [NEWLINE]);
    var sent := Step(begun, codec, write);
    RunOne(begun, codec, write);
    RunAfter(s, codec, [call], [write]);
    assert (text + [NEWLINE])[..|text| + 1] == text + [NEWLINE];
    assert [] + (text + [NEWLINE]) == text + [NEWLINE];
    hide Run, StepNodeByte;
    var heard, taken := NodeHears(sent, codec, text, Replies(reply));
    RunAfter(s, codec, [call] + [write], heard);
    var answered := Step(taken, codec, answer);
    RunOne(taken, codec, answer);
    RunAfter(s, codec, [call] + [write] + heard, [answer]);
    events := [call] + [write] + heard + [answer];
    AnswersNow(taken, codec, reply);
  }

  lemma AnswersNow(s: State, codec: Codec, reply: Line)
    requires s.node.Waiting? && |s.node.got| <= CAP && |s.served| < codec.Allowance() && s.toNode == [NEWLINE]
    requires codec.op(s.node.got).Mutation? ==> codec.op(s.node.got).id !in s.operations
    requires codec.Answerable(codec.op(s.node.got))
    requires Clean(reply) && |reply| + 1 <= CAP && codec.accepted(reply)
    ensures var t := StepNodeByte(s, codec, Replies(reply));
            && t.node == Emitting(reply + [NEWLINE], codec.op(s.node.got) == Stop)
            && t.client == s.client && t.poisoned == s.poisoned && t.closed == s.closed && t.returned == s.returned
            && t.toNode == [] && t.toClient == s.toClient
            && |t.served| == |s.served| + 1 && t.operations == Spent(s.operations, codec.op(s.node.got))
            && t.attempted == s.attempted && t.prepared == s.prepared
  {
  }

  /** The node reads the whole request but for its newline. */
  lemma NodeHears(s: State, codec: Codec, text: Line, outcome: Outcome) returns (events: seq<Event>, t: State)
    requires s.node == Waiting([]) && s.toNode == text + [NEWLINE] && Clean(text) && |text| <= CAP
    requires |s.served| < codec.Allowance()
    ensures t == Run(s, codec, events)
    ensures t == s.(node := Waiting(text), toNode := [NEWLINE], consumed := s.consumed + text)
  {
    events := NodeTakes(s, codec, text, [NEWLINE], outcome);
    t := Run(s, codec, events);
    hide Run;
    assert [] + text == text;
  }

  /**
   From rest, any admissible request and any reply the node may give it: some run returns that reply and is at rest
   again.
   */
  lemma UndisturbedCallReturns(s: State, codec: Codec, text: Line, reply: Line) returns (events: seq<Event>)
    requires AtRest(s) && Admissible(s, codec, text)
    requires Clean(reply) && |reply| + 1 <= CAP && codec.accepted(reply)
    ensures var t := Run(s, codec, events);
            && t.returned == s.returned + [Served(text, reply)]
            && t.client == Idle && !t.poisoned && !t.closed && t.toNode == [] && t.toClient == []
            && t.node == (if codec.op(text) == Stop then Gone else Waiting([]))
            && (codec.op(text) != Stop ==> AtRest(t))
            && |t.served| == |s.served| + 1 && t.operations == Spent(s.operations, codec.op(text))
            && t.attempted == (s.attempted || codec.op(text) == Measure) && t.prepared == PreparedBy(s, codec, text)
  {
    var asked := Requested(s, codec, text, reply);
    hide Run;
    var emitting := Run(s, codec, asked);
    var emit := NodeEmits(|reply| + 1);
    var emitted := Step(emitting, codec, emit);
    assert emitting.node.rest[..|reply| + 1] == reply + [NEWLINE];
    assert [] + (reply + [NEWLINE]) == reply + [NEWLINE] && [] + reply == reply;
    RunOne(emitting, codec, emit);
    RunAfter(s, codec, asked, [emit]);
    hide Step;
    var read := ClientTakes(emitted, codec, reply);
    RunAfter(s, codec, asked + [emit], read);
    events := asked + [emit] + read;
  }

  /** A call that only reads, with a reply the client accepts. */
  ghost predicate Reads(codec: Codec, call: Served) {
    && Clean(call.request) && |call.request| + 1 <= CAP && Clean(call.reply) && |call.reply| + 1 <= CAP
      && codec.accepted(call.reply)
    && (codec.op(call.request) == ReadClock || (!codec.clockOnly && codec.op(call.request) == Query))
  }

  /**
   Calls chain: any number of reads within the node's allowance all return, in order, and leave the session at rest.
   */
  lemma {:induction false} UndisturbedReadsReturn(s: State, codec: Codec, calls: seq<Served>)
    returns (events: seq<Event>)
    requires AtRest(s) && |s.served| + |calls| <= codec.Allowance() && forall i :: 0 <= i < |calls| ==>
      Reads(codec, calls[i])
    ensures var t := Run(s, codec, events); AtRest(t) && t.returned == s.returned + calls
    decreases |calls|
  {
    hide Step, AtRest;
    if calls == [] {
      events := [];
      assert s.returned + calls == s.returned;
    } else {
      hide Run;
      assert Reads(codec, calls[0]);
      var first := UndisturbedCallReturns(s, codec, calls[0].request, calls[0].reply);
      hide Admissible, Clean;
      var rest := UndisturbedReadsReturn(Run(s, codec, first), codec, calls[1..]);
      RunAfter(s, codec, first, rest);
      events := first + rest;
      assert s.returned + [calls[0]] + calls[1..] == s.returned + calls;
    }
  }

  // ---- The allowance ----

  lemma StepWithinAllowance(s: State, codec: Codec, event: Event)
    requires |s.served| <= codec.Allowance()
    ensures |Step(s, codec, event).served| <= codec.Allowance()
  {
    if ByNode(event) {
      hide StepCall, StepWrite, StepRead;
    } else {
      ClientStepLeavesNode(s, codec, event);
      hide Step;
    }
  }

  lemma ServedWithinAllowance(codec: Codec, events: seq<Event>)
    ensures |Run(INITIAL, codec, events).served| <= codec.Allowance()
  {
    hide Step;
    if events == [] {
    } else {
      var n := |events| - 1;
      ServedWithinAllowance(codec, events[..n]);
      StepWithinAllowance(Run(INITIAL, codec, events[..n]), codec, events[n]);
    }
  }

  /** From any rest a session can reach, a list of reads can all return exactly while the node's allowance lasts. */
  lemma ReadsReturnIff(codec: Codec, past: seq<Event>, calls: seq<Served>)
    requires AtRest(Run(INITIAL, codec, past)) && forall i :: 0 <= i < |calls| ==> Reads(codec, calls[i])
    ensures var s := Run(INITIAL, codec, past);
      |s.returned| + |calls| <= codec.Allowance() <==> exists events ::
        Run(s, codec, events).returned == s.returned + calls
  {
    var s := Run(INITIAL, codec, past);
    IdleHasNothingPending(codec, past);
    hide Run;
    if |s.returned| + |calls| <= codec.Allowance() {
      var events := UndisturbedReadsReturn(s, codec, calls);
      hide AtRest;
    }
    if events :| Run(s, codec, events).returned == s.returned + calls {
      RunAfter(INITIAL, codec, past, events);
      ServedWithinAllowance(codec, past + events);
      var t := Run(INITIAL, codec, past + events);
      if |t.returned| > 0 { ReturnedRepliesArePaired(codec, past + events, |t.returned| - 1); }
    }
  }
}
