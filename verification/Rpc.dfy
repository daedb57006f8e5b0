/**
 The session RPC between coordinator and node (scripts/pi_lab_experiment.py, Remote;
 scripts/pi_lab_session.py, line, emit and the main loop): one JSON line each way over
 two byte pipes, no request identities, and a latch that forbids reuse after any failure.
 */
module Rpc {
  import opened Aggregates

  const CAP := 65536
  const COMMANDS := 1024
  const CLOCK_COMMANDS := 16

  type Byte = n: int | 0 <= n < 256
  const NEWLINE: Byte := 10

  type Line = seq<Byte>

  datatype Op = Measure | PrepareLoad | StopLoad | Stop | Mutation(id: nat) | ReadClock | Query

  /** What JSON gives both sides: the operation a line names, and whether a line is a success reply. */
  datatype Codec = Codec(op: Line -> Op, accepted: Line -> bool, clockOnly: bool) {
    /** How many commands the node answers; one more ends the session with a terminal refusal. */
    function Allowance(): nat { if clockOnly then CLOCK_COMMANDS else COMMANDS }

    /** A clock-only node answers nothing but clock reads. */
    predicate Answerable(op: Op) { clockOnly ==> op == ReadClock }
  }

  datatype Client = Idle | Writing(text: Line, rest: seq<Byte>) | Reading(text: Line, got: seq<Byte>)

  datatype Node = Waiting(got: seq<Byte>) | Emitting(rest: seq<Byte>, last: bool) | Gone

  /** A request together with the reply the node gave it. */
  datatype Served = Served(request: Line, reply: Line)

  /**
   Client and node with the two pipes between them, and what has happened so far: the requests
   begun, the bytes each side has moved, the replies served and the calls that returned.
   */
  datatype State = State(
    client: Client, poisoned: bool, attempted: bool, prepared: bool, closed: bool,
    toNode: seq<Byte>, toClient: seq<Byte>, node: Node, operations: set<nat>,
    begun: seq<Line>, wrote: seq<Byte>, consumed: seq<Byte>, read: seq<Byte>,
    served: seq<Served>, output: seq<Line>, returned: seq<Served>, executed: seq<nat>)

  const INITIAL := State(Idle, false, false, false, false, [], [], Waiting([]), {}, [], [], [], [], [], [], [], [])

  datatype Outcome = Replies(text: Line) | Refuses(text: Line, ran: bool)

  /** Everything that can happen next, the environment's choices included; timeouts stand for every failure. */
  datatype Event =
    | Call(text: Line) | Write(n: nat) | ReadByte(valid: bool) | ClientFails | Close
    | NodeByte(outcome: Outcome) | NodeFails(text: Line) | NodeEmits(n: nat) | NodeDies

  predicate Clean(text: Line) { NEWLINE !in text }

  // ---- The client ----

  function Poison(s: State): State { s.(poisoned := true, client := Idle) }

  function StepCall(s: State, codec: Codec, text: Line): State {
    if s.client != Idle || s.poisoned || !Clean(text) then s
    else if s.closed || (codec.clockOnly && codec.op(text) != ReadClock) then Poison(s)
    else if codec.op(text) == Measure && (!s.prepared || s.attempted) then Poison(s)
    else
      var marked := s.(attempted := s.attempted || codec.op(text) == Measure);
      if |text| + 1 > CAP then Poison(marked)
      else marked.(client := Writing(text, text + [NEWLINE]), begun := s.begun + [text])
  }

  function StepWrite(s: State, n: nat): State {
    match s.client
    case Writing(text, rest) =>
      if !(0 < n <= |rest|) then s
      else s.(toNode := s.toNode + rest[..n], wrote := s.wrote + rest[..n],
              client := if n == |rest| then Reading(text, []) else Writing(text, rest[n..]))
    case _ => s
  }

  function StepRead(s: State, codec: Codec, valid: bool): State {
    match s.client
    case Reading(text, got) =>
      if |got| > CAP then Poison(s)
      else if s.toClient == [] then s
      else
        var taken := s.(read := s.read + [s.toClient[0]], toClient := s.toClient[1..]);
        if s.toClient[0] != NEWLINE then taken.(client := Reading(text, got + [s.toClient[0]]))
        else if !codec.accepted(got) || !valid then Poison(taken)
        else taken.(client := Idle, returned := s.returned + [Served(text, got)],
                    prepared := if codec.op(text) == PrepareLoad then true else if codec.op(text) == StopLoad then false
                      else s.prepared)
    case _ => s
  }

  // ---- The node ----

  function Answer(s: State, text: Line, last: bool): State {
    s.(node := Emitting(text + [NEWLINE], last), output := s.output + [text])
  }

  /** A mutation identity is spent before the operation runs, whatever becomes of it. */
  function Spend(s: State, op: Op): State {
    if op.Mutation? then s.(operations := s.operations + {op.id}, executed := s.executed + [op.id]) else s
  }

  function Handle(s: State, codec: Codec, request: Line, outcome: Outcome): State {
    var op := codec.op(request);
    var repeated := op.Mutation? && op.id in s.operations;
    match outcome
    case Replies(text) =>
      if repeated || !codec.Answerable(op) || !Clean(text) || !codec.accepted(text) || |text| + 1 > CAP then s
      else Answer(Spend(s, op), text, op == Stop).(served := s.served + [Served(request, text)])
    case Refuses(text, ran) =>
      if (ran && (repeated || !codec.Answerable(op))) || !Clean(text) || codec.accepted(text) then s
      else Answer(if ran then Spend(s, op) else s, text, true)
  }

  function StepNodeByte(s: State, codec: Codec, outcome: Outcome): State {
    match s.node
    case Waiting(got) =>
      if s.toNode == [] || |got| > CAP || |s.served| >= codec.Allowance() then s
      else
        var taken := s.(toNode := s.toNode[1..], consumed := s.consumed + [s.toNode[0]]);
        if s.toNode[0] != NEWLINE then taken.(node := Waiting(got + [s.toNode[0]]))
        else if Handle(taken, codec, got, outcome) == taken then s
        else Handle(taken, codec, got, outcome)
    case _ => s
  }

  function StepEmit(s: State, n: nat): State {
    match s.node
    case Emitting(rest, last) =>
      if !(0 < n <= |rest|) then s
      else s.(toClient := s.toClient + rest[..n],
              node := if n < |rest| then Emitting(rest[n..], last) else if last then Gone else Waiting([]))
    case _ => s
  }

  function Step(s: State, codec: Codec, event: Event): State {
    match event
    case Call(text) => StepCall(s, codec, text)
    case Write(n) => StepWrite(s, n)
    case ReadByte(valid) => StepRead(s, codec, valid)
    case ClientFails => if s.client == Idle then s else Poison(s)
    case Close => s.(closed := true)
    case NodeByte(outcome) => StepNodeByte(s, codec, outcome)
    case NodeFails(text) => if s.node.Waiting? && Clean(text) && !codec.accepted(text) then Answer(s, text, true) else s
    case NodeEmits(n) => StepEmit(s, n)
    case NodeDies => s.(node := Gone)
  }

  function Run(s: State, codec: Codec, events: seq<Event>): State {
    if events == [] then s else Step(Run(s, codec, events[..|events| - 1]), codec, events[|events| - 1])
  }

  // ---- Who moves what ----

  ghost predicate ClientSame(s: State, t: State) {
    && s.client == t.client && s.poisoned == t.poisoned && s.attempted == t.attempted && s.prepared == t.prepared
    && s.closed == t.closed && s.begun == t.begun && s.wrote == t.wrote && s.read == t.read && s.returned == t.returned
    && s.served <= t.served
  }

  ghost predicate NodeSame(s: State, t: State) {
    && s.node == t.node && s.operations == t.operations && s.consumed == t.consumed
    && s.served == t.served && s.output == t.output && s.executed == t.executed
  }

  predicate ByNode(e: Event) { e.NodeByte? || e.NodeFails? || e.NodeEmits? || e.NodeDies? }

  lemma AnswerLeavesClient(s: State, text: Line, last: bool, served: Served)
    ensures ClientSame(s, Answer(s, text, last))
    ensures ClientSame(s, Answer(s, text, last).(served := s.served + [served]))
  {
  }

  lemma SpendLeavesClient(s: State, op: Op)
    ensures ClientSame(s, Spend(s, op)) && Spend(s, op).served == s.served
  {
  }

  lemma HandleLeavesClient(s: State, codec: Codec, request: Line, outcome: Outcome)
    ensures ClientSame(s, Handle(s, codec, request, outcome))
  {
    var op := codec.op(request);
    SpendLeavesClient(s, op);
    AnswerLeavesClient(Spend(s, op), outcome.text, op == Stop, Served(request, outcome.text));
    AnswerLeavesClient(Spend(s, op), outcome.text, true, Served(request, outcome.text));
    AnswerLeavesClient(s, outcome.text, true, Served(request, outcome.text));
    hide Answer, Spend;
  }

  lemma NodeStepLeavesClient(s: State, codec: Codec, event: Event)
    requires ByNode(event)
    ensures ClientSame(s, Step(s, codec, event))
  {
    hide Handle;
    match event
    case NodeByte(outcome) =>
      if s.node.Waiting? && s.toNode != [] {
        HandleLeavesClient(s.(toNode := s.toNode[1..], consumed := s.consumed + [s.toNode[0]]), codec, s.node.got,
                           outcome);
      }
    case NodeFails(text) =>
    case NodeEmits(n) =>
    case NodeDies =>
  }

  lemma ReadLeavesNode(s: State, codec: Codec, valid: bool)
    ensures NodeSame(s, StepRead(s, codec, valid))
  {
  }

  lemma ClientStepLeavesNode(s: State, codec: Codec, event: Event)
    requires !ByNode(event)
    ensures NodeSame(s, Step(s, codec, event))
  {
    hide StepRead;
    match event
    case ReadByte(valid) => ReadLeavesNode(s, codec, valid);
    case Call(text) =>
    case Write(n) =>
    case ClientFails =>
    case Close =>
  }

  // ---- Framing ----

  /** Lines as they travel: each followed by a newline. */
  function Frames(lines: seq<Line>): seq<Byte> {
    if lines == [] then [] else Frames(lines[..|lines| - 1]) + lines[|lines| - 1] + [NEWLINE]
  }

  ghost predicate AllClean(lines: seq<Line>) { forall i :: 0 <= i < |lines| ==> Clean(lines[i]) }

  lemma FramesSnoc(lines: seq<Line>, line: Line)
    ensures Frames(lines + [line]) == Frames(lines) + line + [NEWLINE]
  {
  }

  lemma {:induction false} FramesSplit(lines: seq<Line>, k: nat)
    requires k < |lines|
    ensures Frames(lines[..k]) + lines[k] + [NEWLINE] == Frames(lines[..k + 1])
    ensures Frames(lines[..k + 1]) <= Frames(lines)
    decreases |lines| - k
  {
    assert lines[..k + 1][..k] == lines[..k];
    if k + 1 < |lines| { FramesSplit(lines, k + 1); } else { assert lines[..k + 1] == lines; }
  }

  lemma FirstNewline(x: Line, y: Line, stream: seq<Byte>)
    requires Clean(x) && Clean(y)
    requires x + [NEWLINE] <= stream && y + [NEWLINE] <= stream
    ensures x == y
  {
    assert stream[|x|] == NEWLINE && stream[|y|] == NEWLINE;
    assert x == stream[..|x|] && y == stream[..|y|];
  }

  /** A clean line read off after the first k frames is the k-th line itself. */
  lemma FrameRead(lines: seq<Line>, k: nat, got: Line)
    requires AllClean(lines) && Clean(got) && k <= |lines|
    requires Frames(lines[..k]) + (got + [NEWLINE]) <= Frames(lines)
    ensures k < |lines| && got == lines[k]
  {
    hide Frames;
    PrefixTail(Frames(lines[..k]), got + [NEWLINE], Frames(lines));
    var tail := Frames(lines)[|Frames(lines[..k])|..];
    assert lines[..|lines|] == lines;
    if k < |lines| {
      NextFrame(lines, k);
      assert lines[k] in lines;
      FirstNewline(got, lines[k], tail);
    }
  }

  lemma NextFrame(lines: seq<Line>, k: nat)
    requires k < |lines|
    ensures Frames(lines[..k]) <= Frames(lines) && lines[k] + [NEWLINE] <= Frames(lines)[|Frames(lines[..k])|..]
  {
    FramesSplit(lines, k);
    var head := Frames(lines[..k]);
    assert head + lines[k] + [NEWLINE] == head + (lines[k] + [NEWLINE]);
    hide Frames;
    PrefixTail(head, lines[k] + [NEWLINE], Frames(lines));
  }

  lemma PrefixTail<T>(head: seq<T>, part: seq<T>, all: seq<T>)
    requires head + part <= all
    ensures head <= all && part <= all[|head|..]
  {
  }

  // ---- What every run keeps ----

  function Got(client: Client): Line { if client.Reading? then client.got else [] }

  function Unsent(client: Client): seq<Byte> { if client.Writing? then client.rest else [] }

  function Unemitted(node: Node): seq<Byte> { if node.Emitting? then node.rest else [] }

  /** Requests reach the node whole and in order: what it has served is a prefix of what was begun. */
  ghost predicate InputKept(begun: seq<Line>, served: seq<Served>, node: Node, wrote: seq<Byte>, consumed: seq<Byte>,
                            toNode: seq<Byte>, unsent: seq<Byte>, poisoned: bool)
  {
    && AllClean(begun) && |served| <= |begun|
    && (forall i :: 0 <= i < |served| ==> served[i].request == begun[i])
    && wrote == consumed + toNode
    && wrote + unsent <= Frames(begun)
    && (poisoned || wrote + unsent == Frames(begun))
    && match node {
         case Waiting(got) => Clean(got) && consumed == Frames(begun[..|served|]) + got
         case Emitting(_, last) => last || consumed == Frames(begun[..|served|])
         case Gone => true
       }
  }

  /** The node's lines are its replies in order, then at most one terminal failure. */
  ghost predicate OutputKept(served: seq<Served>, output: seq<Line>, node: Node, read: seq<Byte>, toClient: seq<Byte>,
                             codec: Codec) {
    && AllClean(output) && |served| <= |output| <= |served| + 1
    && (forall i :: 0 <= i < |served| ==> output[i] == served[i].reply && codec.accepted(output[i]))
    && (|output| > |served| ==> !codec.accepted(output[|served|]) && !node.Waiting? && (node.Emitting? ==> node.last))
    && read + (toClient + Unemitted(node)) <= Frames(output)
    && (node.Gone? || read + (toClient + Unemitted(node)) == Frames(output))
  }

  /** An unpoisoned client has read whole lines only, one for each call that returned. */
  ghost predicate ClientKept(client: Client, poisoned: bool, begun: seq<Line>, returned: seq<Served>,
                             served: seq<Served>,
                             output: seq<Line>, read: seq<Byte>)
  {
    && (poisoned ==> client == Idle)
    && |returned| <= |served| && returned == served[..|returned|]
    && Clean(Got(client)) && (client.Writing? ==> client.rest != [])
    && (!poisoned ==>
          && |begun| == |returned| + (if client == Idle then 0 else 1)
          && (client != Idle ==> client.text == begun[|returned|])
          && |returned| <= |output|
          && read == Frames(output[..|returned|]) + Got(client))
  }

  ghost predicate MeasureKept(begun: seq<Line>, attempted: bool, codec: Codec) {
    && (forall i, j :: 0 <= i < j < |begun| ==> !(codec.op(begun[i]) == codec.op(begun[j]) == Measure))
    && (!attempted ==> forall i :: 0 <= i < |begun| ==> codec.op(begun[i]) != Measure)
  }

  /** No mutation identity is run twice, and no two served requests carry the same one. */
  ghost predicate MutationsKept(executed: seq<nat>, operations: set<nat>, served: seq<Served>, codec: Codec) {
    && Distinct(executed) && (forall id :: id in executed <==> id in operations)
    && (forall i :: 0 <= i < |served| && codec.op(served[i].request).Mutation? ==>
          codec.op(served[i].request).id in operations)
    && (forall i, j :: 0 <= i < j < |served| && codec.op(served[i].request).Mutation? ==>
          codec.op(served[i].request) != codec.op(served[j].request))
  }

  ghost predicate Kept(s: State, codec: Codec) {
    && InputKept(s.begun, s.served, s.node, s.wrote, s.consumed, s.toNode, Unsent(s.client), s.poisoned)
    && OutputKept(s.served, s.output, s.node, s.read, s.toClient, codec)
    && ClientKept(s.client, s.poisoned, s.begun, s.returned, s.served, s.output, s.read)
    && MeasureKept(s.begun, s.attempted, codec) && MutationsKept(s.executed, s.operations, s.served, codec)
  }

  // ---- The client's steps ----

  lemma PoisonKeeps(s: State, codec: Codec)
    requires Kept(s, codec)
    ensures Kept(Poison(s), codec)
  {
  }

  lemma BegunGrows(begun: seq<Line>, before: bool, codec: Codec, text: Line)
    requires MeasureKept(begun, before, codec) && (codec.op(text) == Measure ==> !before)
    ensures MeasureKept(begun + [text], before || codec.op(text) == Measure, codec)
    ensures MeasureKept(begun, before || codec.op(text) == Measure, codec)
  {
  }

  lemma InputGrows(begun: seq<Line>, served: seq<Served>, node: Node, wrote: seq<Byte>, consumed: seq<Byte>,
                   toNode: seq<Byte>, text: Line)
    requires InputKept(begun, served, node, wrote, consumed, toNode, [], false) && Clean(text)
    ensures InputKept(begun + [text], served, node, wrote, consumed, toNode, text + [NEWLINE], false)
  {
    FramesSnoc(begun, text);
    hide Frames;
    assert (begun + [text])[..|served|] == begun[..|served|];
    assert wrote + [] == wrote;
    assert wrote + (text + [NEWLINE]) == wrote + text + [NEWLINE];
  }

  lemma CallKeeps(s: State, codec: Codec, text: Line)
    requires Kept(s, codec)
    ensures Kept(StepCall(s, codec, text), codec)
  {
    if s.client == Idle && !s.poisoned && Clean(text) {
      var measure := codec.op(text) == Measure;
      PoisonKeeps(s, codec);
      if measure ==> !s.attempted {
        BegunGrows(s.begun, s.attempted, codec, text);
        InputGrows(s.begun, s.served, s.node, s.wrote, s.consumed, s.toNode, text);
      }
      hide Frames, InputKept, OutputKept, MeasureKept, MutationsKept;
      assert s.begun + [text] == s.begun + [text];
    }
  }

  lemma WriteKeeps(s: State, codec: Codec, n: nat)
    requires Kept(s, codec)
    ensures Kept(StepWrite(s, n), codec)
  {
    hide Frames, OutputKept, MeasureKept, MutationsKept;
    if s.client.Writing? && 0 < n <= |s.client.rest| {
      var rest := s.client.rest;
      assert s.wrote + rest == (s.wrote + rest[..n]) + rest[n..];
      assert s.wrote + rest[..n] == s.consumed + (s.toNode + rest[..n]);
      if n == |rest| { assert rest[n..] == []; }
    }
  }

  lemma FrameNext(lines: seq<Line>, k: nat)
    requires k < |lines|
    ensures Frames(lines[..k]) + (lines[k] + [NEWLINE]) == Frames(lines[..k + 1])
  {
    FramesSplit(lines, k);
    assert Frames(lines[..k]) + lines[k] + [NEWLINE] == Frames(lines[..k]) + (lines[k] + [NEWLINE]);
  }

  /** A whole line just read is the first one no call has returned yet, and is served if it is accepted. */
  lemma LineRead(served: seq<Served>, output: seq<Line>, node: Node, read: seq<Byte>, toClient: seq<Byte>, codec: Codec,
                 k: nat, got: Line)
    requires OutputKept(served, output, node, read, toClient, codec) && toClient != [] && toClient[0] == NEWLINE
    requires k <= |output| && read == Frames(output[..k]) + got && Clean(got)
    ensures k < |output| && got == output[k]
    ensures codec.accepted(got) ==> k < |served| && got == served[k].reply
    ensures read + [NEWLINE] == Frames(output[..k + 1]) + []
  {
    hide Frames;
    assert read + [NEWLINE] == Frames(output[..k]) + (got + [NEWLINE]);
    assert read + (toClient + Unemitted(node)) == (read + [NEWLINE]) + (toClient[1..] + Unemitted(node));
    FrameRead(output, k, got);
    FrameNext(output, k);
  }

  lemma ByteTaken(served: seq<Served>, output: seq<Line>, node: Node, read: seq<Byte>, toClient: seq<Byte>,
                  codec: Codec)
    requires OutputKept(served, output, node, read, toClient, codec) && toClient != []
    ensures OutputKept(served, output, node, read + [toClient[0]], toClient[1..], codec)
  {
  }

  lemma ReadKeeps(s: State, codec: Codec, valid: bool)
    requires Kept(s, codec)
    ensures Kept(StepRead(s, codec, valid), codec)
  {
    hide Kept;
    PoisonKeeps(s, codec);
    if s.client.Reading? && |s.client.got| <= CAP && s.toClient != [] {
      hide StepRead;
      if s.toClient[0] == NEWLINE { LineReadKeeps(s, codec, valid); } else { ByteReadKeeps(s, codec, valid); }
    }
  }

  lemma ByteReadKeeps(s: State, codec: Codec, valid: bool)
    requires Kept(s, codec) && s.client.Reading? && |s.client.got| <= CAP && s.toClient != []
    requires s.toClient[0] != NEWLINE
    ensures Kept(StepRead(s, codec, valid), codec)
  {
    hide Frames, InputKept, OutputKept, MeasureKept, MutationsKept;
    ByteTaken(s.served, s.output, s.node, s.read, s.toClient, codec);
    assert s.read + [s.toClient[0]] == Frames(s.output[..|s.returned|]) + (s.client.got + [s.toClient[0]]);
  }

  lemma LineReadKeeps(s: State, codec: Codec, valid: bool)
    requires Kept(s, codec) && s.client.Reading? && |s.client.got| <= CAP && s.toClient != []
    requires s.toClient[0] == NEWLINE
    ensures Kept(StepRead(s, codec, valid), codec)
  {
    hide StepRead, Frames, InputKept, OutputKept, MeasureKept, MutationsKept;
    ByteTaken(s.served, s.output, s.node, s.read, s.toClient, codec);
    LineRead(s.served, s.output, s.node, s.read, s.toClient, codec, |s.returned|, s.client.got);
    PoisonKeeps(s, codec);
    hide Kept;
    LineTakenKeeps(s, codec, valid);
  }

  lemma LineTakenKeeps(s: State, codec: Codec, valid: bool)
    requires Kept(s, codec) && Kept(Poison(s), codec)
    requires s.client.Reading? && |s.client.got| <= CAP && s.toClient != [] && s.toClient[0] == NEWLINE
    requires OutputKept(s.served, s.output, s.node, s.read + [NEWLINE], s.toClient[1..], codec)
    requires codec.accepted(s.client.got) ==> |s.returned| < |s.served| && s.client.got == s.served[|s.returned|].reply
    requires |s.returned| < |s.output| && s.read + [NEWLINE] == Frames(s.output[..|s.returned| + 1]) + []
    ensures Kept(StepRead(s, codec, valid), codec)
  {
    hide Frames, OutputKept, MeasureKept, MutationsKept;
    var k := |s.returned|;
    if codec.accepted(s.client.got) {
      assert s.served[k].request == s.begun[k];
      assert s.returned + [Served(s.client.text, s.client.got)] == s.served[..k + 1];
    }
    hide InputKept;
  }

  // ---- The node's steps ----

  lemma SpendKeeps(s: State, codec: Codec, request: Line, reply: Line)
    requires MutationsKept(s.executed, s.operations, s.served, codec)
    requires var op := codec.op(request); op.Mutation? ==> op.id !in s.operations
    ensures var t := Spend(s, codec.op(request));
            && MutationsKept(t.executed, t.operations, s.served, codec)
            && MutationsKept(t.executed, t.operations, s.served + [Served(request, reply)], codec)
  {
  }

  /** Answering adds one line to the output and leaves it all to be emitted. */
  lemma AnswerKeeps(served: seq<Served>, output: seq<Line>, node: Node, read: seq<Byte>, toClient: seq<Byte>,
                    codec: Codec,
                    text: Line, last: bool, request: Line)
    requires OutputKept(served, output, node, read, toClient, codec) && node.Waiting? && Clean(text)
    ensures codec.accepted(text) ==>
      OutputKept(served + [Served(request, text)], output + [text], Emitting(text + [NEWLINE], last), read, toClient,
                 codec)
    ensures !codec.accepted(text) ==>
      OutputKept(served, output + [text], Emitting(text + [NEWLINE], true), read, toClient, codec)
  {
    FramesSnoc(output, text);
    hide Frames;
    assert toClient + [] == toClient;
    assert read + (toClient + (text + [NEWLINE])) == (read + toClient) + text + [NEWLINE];
  }

  lemma OutputGrows(client: Client, poisoned: bool, begun: seq<Line>, returned: seq<Served>, served: seq<Served>,
                    output: seq<Line>, read: seq<Byte>, text: Line, request: Line)
    requires ClientKept(client, poisoned, begun, returned, served, output, read)
    ensures ClientKept(client, poisoned, begun, returned, served, output + [text], read)
    ensures ClientKept(client, poisoned, begun, returned, served + [Served(request, text)], output + [text], read)
  {
    hide Frames;
    if !poisoned { assert (output + [text])[..|returned|] == output[..|returned|]; }
    assert (served + [Served(request, text)])[..|returned|] == served[..|returned|];
  }

  lemma RequestTaken(begun: seq<Line>, served: seq<Served>, node: Node, wrote: seq<Byte>, consumed: seq<Byte>,
                     toNode: seq<Byte>, unsent: seq<Byte>, poisoned: bool, reply: Line, rest: seq<Byte>, last: bool)
    requires InputKept(begun, served, node, wrote, consumed, toNode, unsent, poisoned)
    requires node.Waiting? && toNode != [] && toNode[0] == NEWLINE
    ensures InputKept(begun, served + [Served(node.got, reply)], Emitting(rest, last), wrote, consumed + [NEWLINE],
                      toNode[1..], unsent, poisoned)
    ensures InputKept(begun, served, Emitting(rest, true), wrote, consumed + [NEWLINE], toNode[1..], unsent, poisoned)
  {
    var got, h := node.got, |served|;
    hide Frames;
    assert consumed + toNode == (consumed + [NEWLINE]) + toNode[1..];
    assert Frames(begun[..h]) + (got + [NEWLINE]) == consumed + [NEWLINE];
    assert wrote <= wrote + unsent <= Frames(begun);
    assert consumed + [NEWLINE] <= wrote;
    FrameRead(begun, h, got);
    FrameNext(begun, h);
  }

  lemma NodeByteKeeps(s: State, codec: Codec, outcome: Outcome)
    requires Kept(s, codec)
    ensures Kept(StepNodeByte(s, codec, outcome), codec)
  {
    if s.node.Waiting? && s.toNode != [] {
      var got, b := s.node.got, s.toNode[0];
      if b == NEWLINE {
        NodeLineKeeps(s, codec, outcome);
      } else {
        RequestByte(s.begun, s.served, s.node, s.wrote, s.consumed, s.toNode, Unsent(s.client), s.poisoned);
        hide Frames, InputKept, ClientKept, MeasureKept, MutationsKept;
      }
    }
  }

  lemma RequestByte(begun: seq<Line>, served: seq<Served>, node: Node, wrote: seq<Byte>, consumed: seq<Byte>,
                    toNode: seq<Byte>, unsent: seq<Byte>, poisoned: bool)
    requires InputKept(begun, served, node, wrote, consumed, toNode, unsent, poisoned)
    requires node.Waiting? && toNode != [] && toNode[0] != NEWLINE
    ensures InputKept(begun, served, Waiting(node.got + [toNode[0]]), wrote, consumed + [toNode[0]], toNode[1..],
                      unsent, poisoned)
  {
  }

  lemma NodeLineKeeps(s: State, codec: Codec, outcome: Outcome)
    requires Kept(s, codec)
    requires s.node.Waiting? && s.toNode != [] && s.toNode[0] == NEWLINE
    ensures Kept(StepNodeByte(s, codec, outcome), codec)
  {
    hide MeasureKept, MutationsKept, InputKept, OutputKept, ClientKept;
    var request, text := s.node.got, outcome.text;
    var last := outcome.Refuses? || codec.op(request) == Stop;
    if codec.op(request).Mutation? ==> codec.op(request).id !in s.operations { SpendKeeps(s, codec, request, text); }
    RequestTaken(s.begun, s.served, s.node, s.wrote, s.consumed, s.toNode, Unsent(s.client), s.poisoned, text,
                 text + [NEWLINE], last);
    if Clean(text) {
      AnswerKeeps(s.served, s.output, s.node, s.read, s.toClient, codec, text, last, request);
      OutputGrows(s.client, s.poisoned, s.begun, s.returned, s.served, s.output, s.read, text, request);
    }
  }

  lemma FailureKeeps(s: State, codec: Codec, text: Line)
    requires Kept(s, codec) && s.node.Waiting? && Clean(text) && !codec.accepted(text)
    ensures Kept(Answer(s, text, true), codec)
  {
    hide OutputKept, ClientKept, Frames, MeasureKept, MutationsKept;
    AnswerKeeps(s.served, s.output, s.node, s.read, s.toClient, codec, text, true, text);
    OutputGrows(s.client, s.poisoned, s.begun, s.returned, s.served, s.output, s.read, text, text);
  }

  lemma EmitKeeps(s: State, codec: Codec, n: nat)
    requires Kept(s, codec)
    ensures Kept(StepEmit(s, n), codec)
  {
    hide Frames, MeasureKept, MutationsKept, ClientKept;
    if s.node.Emitting? && 0 < n <= |s.node.rest| {
      var rest := s.node.rest;
      assert s.toClient + rest == (s.toClient + rest[..n]) + rest[n..];
      if n == |rest| {
        assert rest[n..] == [];
        assert Frames(s.begun[..|s.served|]) + [] == Frames(s.begun[..|s.served|]);
      }
    }
  }

  lemma DeathKeeps(s: State, codec: Codec)
    requires Kept(s, codec)
    ensures Kept(s.(node := Gone), codec)
  {
    hide Frames, MeasureKept, MutationsKept, ClientKept;
    assert s.toClient + [] == s.toClient;
    assert s.read + s.toClient <= s.read + (s.toClient + Unemitted(s.node)) <= Frames(s.output);
  }

  lemma StepKeeps(s: State, codec: Codec, event: Event)
    requires Kept(s, codec)
    ensures Kept(Step(s, codec, event), codec)
  {
    hide InputKept, OutputKept, ClientKept, MeasureKept, MutationsKept;
    hide StepCall, StepWrite, StepRead, StepNodeByte, StepEmit;
    match event
    case Call(text) => CallKeeps(s, codec, text);
    case Write(n) => WriteKeeps(s, codec, n);
    case ReadByte(valid) => ReadKeeps(s, codec, valid);
    case ClientFails => PoisonKeeps(s, codec);
    case NodeByte(outcome) => NodeByteKeeps(s, codec, outcome);
    case NodeFails(text) => if s.node.Waiting? && Clean(text) && !codec.accepted(text) { FailureKeeps(s, codec, text); }
    case NodeEmits(n) => EmitKeeps(s, codec, n);
    case NodeDies => DeathKeeps(s, codec);
    case Close =>
  }

  lemma {:induction false} RunKeeps(codec: Codec, events: seq<Event>)
    ensures Kept(Run(INITIAL, codec, events), codec)
  {
    if events == [] {
    } else {
      RunKeeps(codec, events[..|events| - 1]);
      StepKeeps(Run(INITIAL, codec, events[..|events| - 1]), codec, events[|events| - 1]);
    }
  }

  // ---- The guarantees ----

  /** Every call that returned got the node's reply to that very request, in any run whatever. */
  lemma ReturnedRepliesArePaired(codec: Codec, events: seq<Event>, i: nat)
    requires i < |Run(INITIAL, codec, events).returned|
    ensures var s := Run(INITIAL, codec, events);
            i < |s.served| && i < |s.begun| && s.returned[i] == s.served[i] && s.returned[i].request == s.begun[i]
  {
    RunKeeps(codec, events);
    hide Frames, Run;
  }

  /** Of all requests ever begun at most one is a measurement, and the node runs each mutation identity at most once. */
  lemma AtMostOneMeasurement(codec: Codec, events: seq<Event>)
    ensures var s := Run(INITIAL, codec, events);
            && (forall i, j | 0 <= i < |s.begun| && 0 <= j < |s.begun| ::
                  codec.op(s.begun[i]) == codec.op(s.begun[j]) == Measure ==> i == j)
            && Distinct(s.executed)
            && forall i, j :: 0 <= i < |s.served| && 0 <= j < |s.served| && codec.op(s.served[i].request).Mutation? ==>
                 (codec.op(s.served[i].request) == codec.op(s.served[j].request) ==> i == j)
  {
    RunKeeps(codec, events);
    hide Frames, Run, InputKept, OutputKept, ClientKept;
  }

  /** What the node has said and an idle, unpoisoned client has not read: nothing, or part of one terminal refusal. */
  lemma IdleHasNothingPending(codec: Codec, events: seq<Event>)
    ensures var s := Run(INITIAL, codec, events);
            s.client == Idle && !s.poisoned ==>
              && |s.returned| == |s.served| == |s.begun|
              && var pending := s.toClient + Unemitted(s.node);
              pending == [] || exists refusal: Line ::
                !codec.accepted(refusal) && Clean(refusal) && pending <= refusal + [NEWLINE]
  {
    RunKeeps(codec, events);
    var s := Run(INITIAL, codec, events);
    hide Run;
    if s.client == Idle && !s.poisoned { PendingIsTerminal(s, codec); }
  }

  lemma PendingIsTerminal(s: State, codec: Codec)
    requires Kept(s, codec) && s.client == Idle && !s.poisoned
    ensures |s.returned| == |s.served| == |s.begun|
    ensures var pending := s.toClient + Unemitted(s.node);
            pending == [] || exists refusal: Line ::
              !codec.accepted(refusal) && Clean(refusal) && pending <= refusal + [NEWLINE]
  {
    var k, pending := |s.served|, s.toClient + Unemitted(s.node);
    hide MeasureKept, MutationsKept;
    assert s.read == Frames(s.output[..k]) by { assert Frames(s.output[..k]) + [] == Frames(s.output[..k]); }
    if |s.output| == k {
      assert s.output[..k] == s.output;
      hide Frames;
      assert s.read + pending <= s.read;
    } else {
      FrameNext(s.output, k);
      assert s.output[..k + 1] == s.output;
      hide Frames;
      PrefixTail(s.read, pending, Frames(s.output));
      assert Frames(s.output)[|s.read|..] == s.output[k] + [NEWLINE];
      assert Clean(s.output[k]);
    }
  }

  ghost predicate Silent(s: State, t: State) {
    t.poisoned && t.client == Idle && t.wrote == s.wrote && t.begun == s.begun && t.returned == s.returned
      && t.read == s.read
  }

  lemma PoisonedStep(s: State, codec: Codec, event: Event)
    requires s.poisoned && s.client == Idle
    ensures Silent(s, Step(s, codec, event))
  {
    if ByNode(event) {
      hide Step;
      NodeStepLeavesClient(s, codec, event);
    }
  }

  /** Once a call has failed, nothing is written, begun, read or returned again, whatever happens. */
  lemma {:induction false} PoisonIsForever(s: State, codec: Codec, events: seq<Event>)
    requires s.poisoned && s.client == Idle
    ensures Silent(s, Run(s, codec, events))
  {
    hide Step;
    if events == [] {
    } else {
      PoisonIsForever(s, codec, events[..|events| - 1]);
      PoisonedStep(Run(s, codec, events[..|events| - 1]), codec, events[|events| - 1]);
    }
  }
}
