/**
 The two programs at the ends of the session, written as they run: the coordinator's Remote
 (scripts/pi_lab_experiment.py:69-186) and the node's main loop (scripts/pi_lab_session.py:61-82,
 347-374). Between any two of its own actions each may find that the other has moved.
 */
module RpcPeers {
  import opened Aggregates
  import opened R = Rpc

  const CHUNK := 4096

  lemma WriteProgress(s: State, codec: Codec, n: nat)
    requires s.client.Writing? && 0 < n <= |s.client.rest|
    ensures var t := Step(s, codec, Write(n));
            && t.returned == s.returned && t.begun == s.begun && t.poisoned == s.poisoned
            && t.client == if n == |s.client.rest| then Reading(s.client.text, [])
              else Writing(s.client.text, s.client.rest[n..])
  {
  }

  lemma EmitProgress(s: State, codec: Codec, n: nat)
    requires s.node.Emitting? && 0 < n <= |s.node.rest|
    ensures var t := Step(s, codec, NodeEmits(n));
            && t.served == s.served && t.executed == s.executed
            && t.node == if n < |s.node.rest| then Emitting(s.node.rest[n..], s.node.last)
                         else if s.node.last then Gone else Waiting([])
  {
  }

  /** A begun call is being written, and its text is not yet exhausted. */
  lemma CallBegins(s: State, codec: Codec, text: Line)
    requires Kept(s, codec) && s.client == Idle && Clean(text) && !s.poisoned
    ensures var t := Step(s, codec, Event.Call(text));
            t.returned == s.returned && (t.poisoned ==> t.client == Idle)
            && (!t.poisoned ==>
                  && t.client == Writing(text, text + [NEWLINE]) && t.prepared == s.prepared
                  && !s.closed && |text| < 65536 && (codec.clockOnly ==> codec.op(text) == ReadClock)
                  && (codec.op(text) == Measure ==> s.prepared && !s.attempted))
  {
  }

  /** In any kept state the returned calls are the first served ones. */
  lemma ReturnedAreServed(s: State, codec: Codec)
    requires Kept(s, codec)
    ensures |s.returned| <= |s.served| && s.returned == s.served[..|s.returned|]
    ensures s.client.Writing? ==> s.client.rest != []
  {
  }

  /** One byte heard is kept, or completes a request that is answered or refused at once. */
  lemma ByteProgress(s: State, codec: Codec, outcome: Outcome)
    requires s.node.Waiting? && s.toNode != [] && |s.node.got| <= CAP
    ensures var t := Step(s, codec, NodeByte(outcome));
      && (t.node.Waiting? || (t.node.Emitting? && t.node.rest != []))
      && (t.node.Waiting? ==> t.served == s.served && (t.node == s.node || |t.node.got| == |s.node.got| + 1))
      && (t.node.Emitting? ==>
            || (t.served == s.served && t.node.last)
            || (|t.served| == |s.served| + 1 && t.served[..|s.served|] == s.served
                && (t.node.last <==> codec.op(t.served[|s.served|].request) == Stop)))
  {
  }

  lemma FailureProgress(s: State, codec: Codec, failure: Line)
    requires s.node.Waiting? && Clean(failure) && !codec.accepted(failure)
    ensures var t := Step(s, codec, NodeFails(failure));
      t.served == s.served && t.node.Emitting? && t.node.last && t.node.rest != []
  {
  }

  class Session {
    const codec: Codec
    var s: State

    constructor (codec: Codec)
      ensures this.codec == codec && s == INITIAL && Kept(s, codec)
    {
      this.codec := codec;
      s := INITIAL;
      new;
      RunKeeps(codec, []);
    }

    method Take(event: Event)
      requires Kept(s, codec)
      modifies this
      ensures Kept(s, codec) && s == Step(old(s), codec, event)
    {
      StepKeeps(s, codec, event);
      s := Step(s, codec, event);
    }

    /** Any number of steps of the node. */
    method NodeMoves()
      requires Kept(s, codec)
      modifies this
      ensures Kept(s, codec) && ClientSame(old(s), s)
    {
      hide Kept, Step;
      var events: seq<Event> := *;
      for i := 0 to |events|
        invariant Kept(s, codec) && ClientSame(old(s), s)
      {
        if ByNode(events[i]) {
          NodeStepLeavesClient(s, codec, events[i]);
          Take(events[i]);
        }
      }
    }

    /** Any number of steps of the client. */
    method ClientMoves()
      requires Kept(s, codec)
      modifies this
      ensures Kept(s, codec) && NodeSame(old(s), s)
    {
      hide Kept, Step;
      var events: seq<Event> := *;
      for i := 0 to |events|
        invariant Kept(s, codec) && NodeSame(old(s), s)
      {
        if !ByNode(events[i]) {
          ClientStepLeavesNode(s, codec, events[i]);
          Take(events[i]);
        }
      }
    }

    /** Writes the request a chunk at a time; a deadline can strike after any chunk. */
    method Send() returns (ok: bool)
      requires Kept(s, codec) && s.client.Writing? && !s.poisoned
      modifies this
      ensures Kept(s, codec) && s.returned == old(s.returned) && s.begun == old(s.begun)
      ensures ok ==> s.client == Reading(old(s.client.text), []) && !s.poisoned && s.prepared == old(s.prepared)
      ensures !ok ==> s.poisoned && s.client == Idle
    {
      hide Kept;
      var text := s.client.text;
      ReturnedAreServed(s, codec);
      while s.client.Writing?
        invariant Kept(s, codec) && s.returned == old(s.returned) && s.begun == old(s.begun) && !s.poisoned
        invariant s.prepared == old(s.prepared)
        invariant s.client == Reading(text, []) || (s.client.Writing? && s.client.text == text && s.client.rest != [])
        decreases if s.client.Writing? then |s.client.rest| else 0
      {
        NodeMoves();
        var late: bool := *;
        if late {
          Take(ClientFails);
          return false;
        }
        assert 0 < 1 <= CHUNK && 1 <= |s.client.rest|;
        var n: nat :| 0 < n <= CHUNK && n <= |s.client.rest|;
        WriteProgress(s, codec, n);
        Take(Write(n));
      }
      ok := true;
    }

    /** Reads one line a byte at a time; silence, end of file or an overlong line ends the call. */
    method Receive(valid: bool) returns (reply: Option<Line>)
      requires Kept(s, codec) && s.client.Reading? && s.client.got == [] && !s.poisoned
      modifies this
      ensures Kept(s, codec) && s.client == Idle && s.begun == old(s.begun)
      ensures reply.None? ==> s.poisoned && s.returned == old(s.returned)
      ensures reply.Some? ==> !s.poisoned && s.returned == old(s.returned) + [Served(old(s.client.text), reply.value)]
      ensures reply.Some? ==>
        s.prepared == (codec.op(old(s.client.text)) == PrepareLoad
                       || (old(s.prepared) && codec.op(old(s.client.text)) != StopLoad))
    {
      hide Kept;
      var text := s.client.text;
      while true
        invariant Kept(s, codec) && s.client.Reading? && s.client.text == text && !s.poisoned
        invariant s.returned == old(s.returned) && s.begun == old(s.begun) && |s.client.got| <= CAP + 1
        invariant s.prepared == old(s.prepared)
        decreases CAP + 1 - |s.client.got|
      {
        NodeMoves();
        var late: bool := *;
        if late || s.toClient == [] || |s.client.got| > CAP {
          Take(ClientFails);
          return None;
        }
        var got := s.client.got;
        Take(ReadByte(valid));
        if s.poisoned { return None; }
        if s.client == Idle { return Some(got); }
      }
    }

    /** Remote.call: refused once poisoned, and every failure on the way poisons. */
    method Call(text: Line, valid: bool) returns (reply: Option<Line>)
      requires Kept(s, codec) && s.client == Idle && Clean(text)
      modifies this
      ensures Kept(s, codec) && s.client == Idle
      ensures old(s.poisoned) ==> reply.None? && s == old(s)
      ensures reply.None? ==> s.poisoned && s.returned == old(s.returned)
      ensures reply.Some? ==> !s.poisoned && s.returned == old(s.returned) + [Served(text, reply.value)]
      ensures reply.Some? ==> |s.returned| <= |s.served| && s.served[|s.returned| - 1] == Served(text, reply.value)
      ensures reply.Some? ==>
        s.prepared == (codec.op(text) == PrepareLoad || (old(s.prepared) && codec.op(text) != StopLoad))
      ensures reply.Some? && codec.op(text) == Measure ==> old(s.prepared && !s.attempted)
      ensures reply.Some? ==>
        !old(s.closed) && |text| < 65536 && (codec.clockOnly ==> codec.op(text) == ReadClock)
    {
      hide Kept, Step;
      if s.poisoned { return None; }
      CallBegins(s, codec, text);
      Take(Event.Call(text));
      if s.poisoned { return None; }
      var sent := Send();
      if !sent { return None; }
      reply := Receive(valid);
      ReturnedAreServed(s, codec);
    }

    /** Remote.stop: without a trusted reply boundary it only closes; nothing is written. */
    method StopAndClose(stopText: Line) returns (reply: Option<Line>)
      requires Kept(s, codec) && s.client == Idle && Clean(stopText)
      modifies this
      ensures Kept(s, codec) && s.closed
      ensures old(s.poisoned) ==> reply.None? && s.wrote == old(s.wrote) && s.begun == old(s.begun)
      ensures reply.Some? ==> !s.poisoned && s.returned == old(s.returned) + [Served(stopText, reply.value)]
      ensures reply.None? ==> s.poisoned && s.returned == old(s.returned)
    {
      hide Kept;
      reply := None;
      if !s.poisoned { reply := Call(stopText, true); }
      Take(Close);
    }

    /** Emits the whole line it is in the middle of. */
    method Emit()
      requires Kept(s, codec) && s.node.Emitting? && s.node.rest != []
      modifies this
      ensures Kept(s, codec) && s.served == old(s.served) && s.executed == old(s.executed)
      ensures s.node == if old(s.node.last) then Gone else Waiting([])
    {
      hide Kept;
      var last := s.node.last;
      while s.node.Emitting?
        invariant Kept(s, codec) && s.served == old(s.served) && s.executed == old(s.executed)
        invariant s.node == (if last then Gone else Waiting([]))
          || (s.node.Emitting? && s.node.last == last && s.node.rest != [])
        decreases if s.node.Emitting? then |s.node.rest| else 0
      {
        ClientMoves();
        assert 0 < 1 <= |s.node.rest|;
        var n: nat :| 0 < n <= |s.node.rest|;
        EmitProgress(s, codec, n);
        Take(NodeEmits(n));
      }
    }

    /** Reads one request line and answers it, or gives up with a terminal refusal. */
    method ServeOne(failure: Line)
      requires Kept(s, codec) && s.node == Waiting([]) && |s.served| < codec.Allowance()
      requires Clean(failure) && !codec.accepted(failure)
      modifies this
      ensures Kept(s, codec)
      ensures s.node == Gone || (s.node == Waiting([]) && |s.served| == |old(s.served)| + 1
                                 && s.served[..|old(s.served)|] == old(s.served))
      ensures s.served == old(s.served) || |s.served| == |old(s.served)| + 1
      ensures |s.served| > |old(s.served)| ==>
        (s.node == Gone <==> codec.op(s.served[|old(s.served)|].request) == Stop)
    {
      hide Kept, Step;
      while s.node.Waiting?
        invariant Kept(s, codec) && (s.node.Waiting? || (s.node.Emitting? && s.node.rest != []))
        invariant s.node.Waiting? ==> s.served == old(s.served) && |s.node.got| <= CAP + 1
        invariant s.node.Emitting? && !s.node.last ==>
          |s.served| == |old(s.served)| + 1 && s.served[..|old(s.served)|] == old(s.served)
        invariant s.node.Emitting? && s.node.last ==> s.served == old(s.served) || |s.served| == |old(s.served)| + 1
        invariant s.node.Emitting? && |s.served| > |old(s.served)| ==>
          (s.node.last <==> codec.op(s.served[|old(s.served)|].request) == Stop)
        decreases if s.node.Waiting? then CAP + 2 - |s.node.got| else 0
      {
        ClientMoves();
        var late: bool, outcome: Outcome := *, *;
        FailureProgress(s, codec, failure);
        if late || s.toNode == [] || |s.node.got| > CAP {
          Take(NodeFails(failure));
        } else {
          var before := s.node;
          ByteProgress(s, codec, outcome);
          Take(NodeByte(outcome));
          if s.node == before {
            FailureProgress(s, codec, failure);
            Take(NodeFails(failure));
          }
        }
      }
      Emit();
    }

    /**
     The main loop, or the clock-only one: as many commands as allowed, then one terminal refusal. It ends earlier only
     when it was told to stop or left a command unanswered.
     */
    method Serve(failure: Line) returns (ghost unanswered: bool)
      requires Kept(s, codec) && s.node == Waiting([]) && s.served == []
      requires Clean(failure) && !codec.accepted(failure)
      modifies this
      ensures Kept(s, codec) && s.node == Gone && |s.served| <= (if codec.clockOnly then 16 else 1024)
      ensures !unanswered && (s.served == [] || codec.op(s.served[|s.served| - 1].request) != Stop) ==>
        |s.served| == (if codec.clockOnly then 16 else 1024)
    {
      hide Kept;
      unanswered := false;
      for i := 0 to codec.Allowance()
        invariant Kept(s, codec) && s.node == Waiting([]) && |s.served| == i && !unanswered
      {
        ServeOne(failure);
        unanswered := |s.served| == i;
        if s.node == Gone { return; }
      }
      Take(NodeFails(failure));
      Emit();
    }
  }
}
