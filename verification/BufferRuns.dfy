/** Runs of a broadcast: any interleaving of reads and sends, as XPAClientProcessSelect drives them
    (libxpa/client.c). */
module BufferRuns {
  import opened Common
  import opened BufferState

  /** The clients whose sends XPAClientProcessSelect looks at. */
  predicate Serves(s: State, c: nat) {
    c < |s.clients| && s.clients[c].isSet && s.clients[c].status == Processing
  }

  function Step(s: State, e: Event, level: int): State {
    match e
    case Read(supply, error) => if s.open then AfterRead(s, supply, error) else s
    case Write(c, replies) => if Serves(s, c) then AfterSet(s, c, replies, level) else s
  }

  /** What the event adds to the stream. */
  function Adds(s: State, e: Event): seq<byte> {
    match e
    case Read(supply, error) => if s.open then Taken(s, supply, error) else []
    case Write(_, _) => []
  }

  /** The event is counted as a completed send: the result of XPAClientSet is positive. */
  predicate Counts(s: State, e: Event, level: int) {
    e.Write? && Serves(s, e.client) && Answer(s, e.client, e.replies, level).1 > 0
  }

  function StepAll(s: State, events: seq<Event>, level: int): State {
    if events == [] then s
    else
      var n := |events| - 1;
      Step(StepAll(s, events[..n], level), events[n], level)
  }

  /** Everything read in a run. */
  function AddsAll(s: State, events: seq<Event>, level: int): seq<byte> {
    if events == [] then []
    else
      var n := |events| - 1;
      AddsAll(s, events[..n], level) + Adds(StepAll(s, events[..n], level), events[n])
  }

  /** The clients counted as complete in a run. */
  function Counted(s: State, events: seq<Event>, level: int): set<nat> {
    if events == [] then {}
    else
      var n := |events| - 1;
      var before := Counted(s, events[..n], level);
      if Counts(StepAll(s, events[..n], level), events[n], level) then before + {events[n].client} else before
  }

  // ---- Safety ----------------------------------------------------------------------------

  lemma StepKeeps(s: State, stream: seq<byte>, e: Event, level: int)
    requires StateValid(s, stream)
    ensures StateValid(Step(s, e, level), stream + Adds(s, e))
  {
    assert stream + [] == stream;
    match e
    case Read(supply, error) =>
      if s.open {
        ReadKeeps(s, stream, supply, error);
      }
    case Write(c, replies) =>
      if Serves(s, c) {
        SetKeeps(s, stream, c, replies, level);
      }
  }

  /** Over every interleaving of reads, partial sends and refusals, each client has sent a prefix of its
      data, and what it still needs is in some buffer. */
  lemma {:induction false} StepsKeep(s: State, stream: seq<byte>, events: seq<Event>, level: int)
    requires StateValid(s, stream)
    ensures StateValid(StepAll(s, events, level), stream + AddsAll(s, events, level))
  {
    assert stream + [] == stream;
    if events != [] {
      var n := |events| - 1;
      var before := StepAll(s, events[..n], level);
      StepsKeep(s, stream, events[..n], level);
      StepKeeps(before, stream + AddsAll(s, events[..n], level), events[n], level);
      Associative(stream, AddsAll(s, events[..n], level), Adds(before, events[n]));
    }
  }

  /** The client waits, and has sent everything it ever will. */
  ghost predicate Ended(s: State, c: nat, stream: seq<byte>) {
    c < |s.clients| && s.clients[c].status == Waiting && Complete(s.clients[c], stream, s.open)
  }

  /** Only progress changes in a client, none in one that waits. */
  predicate Follows(c: Client, c': Client) {
    c'.isSet == c.isSet && c'.mode == c.mode && c'.bytes >= c.bytes && (c.status == Waiting ==> c' == c)
  }

  lemma StepFollows(s: State, e: Event, level: int)
    ensures |Step(s, e, level).clients| == |s.clients|
    ensures forall c :: 0 <= c < |s.clients| ==> Follows(s.clients[c], Step(s, e, level).clients[c])
    ensures forall c :: 0 <= c < |s.clients| && !(e.Write? && e.client == c) ==>
                    Step(s, e, level).clients[c] == s.clients[c]
  {
    if e.Write? && Serves(s, e.client) {
      AnswerIs(s, e.client, e.replies, level);
    }
  }

  /** A client that has ended stays so. */
  lemma StepEnded(s: State, stream: seq<byte>, e: Event, level: int, c: nat)
    requires StateValid(s, stream) && Ended(s, c, stream)
    ensures Ended(Step(s, e, level), c, stream + Adds(s, e))
  {
    assert stream + [] == stream;
    StepFollows(s, e, level);
  }

  /** The client waits, but a send has failed before everything was sent. */
  ghost predicate Cut(s: State, c: nat, stream: seq<byte>) {
    && c < |s.clients| && s.clients[c].status == Waiting
    && match s.clients[c].mode
       case Buffer(data) => |s.clients[c].out| < |data|
       case Descriptor => |s.clients[c].out| < |stream|
  }

  lemma StepCut(s: State, stream: seq<byte>, e: Event, level: int, c: nat)
    requires StateValid(s, stream) && Cut(s, c, stream)
    ensures Cut(Step(s, e, level), c, stream + Adds(s, e)) && !(Counts(s, e, level) && e.client == c)
  {
    StepFollows(s, e, level);
  }

  lemma FailureCuts(s: State, stream: seq<byte>, c: nat, replies: seq<Sent>, level: int)
    requires StateValid(s, stream) && Serves(s, c) && Value(s, c, replies, level) == -1
    ensures Cut(AfterSet(s, c, replies, level), c, stream)
  {
    AnswerIs(s, c, replies, level);
    PendingIsNext(s, stream, c);
    assert SentBytes(s, c, replies, level) < |Pending(s, c)|;
    assert |s.clients[c].out| == s.clients[c].bytes;
  }

  /** What one event makes of a client that is being served. */
  lemma StepEnds(s: State, stream: seq<byte>, e: Event, level: int, c: nat)
    requires StateValid(s, stream) && Serves(s, c)
    ensures var s', stream' := Step(s, e, level), stream + Adds(s, e);
            Serves(s', c) || Cut(s', c, stream') || (Ended(s', c, stream') && Counts(s, e, level) && e.client == c)
    ensures level <= 0 && Counts(s, e, level) && e.client == c ==> Ended(Step(s, e, level), c, stream + Adds(s, e))
  {
    assert stream + [] == stream;
    StepFollows(s, e, level);
    if e.Write? && e.client == c {
      AnswerIs(s, c, e.replies, level);
      StopsComplete(s, stream, c, e.replies, level);
      if Value(s, c, e.replies, level) == -1 {
        FailureCuts(s, stream, c, e.replies, level);
      }
    }
  }

  /** A client is being served, has ended, or was cut off; without an XPA level the clients counted as
      complete are exactly those that have ended, and with one these are among them. */
  lemma {:induction false} CountedIsEnded(s: State, stream: seq<byte>, events: seq<Event>, level: int, c: nat)
    requires StateValid(s, stream) && Serves(s, c)
    ensures c < |StepAll(s, events, level).clients|
    ensures Follows(s.clients[c], StepAll(s, events, level).clients[c])
    ensures var s', stream' := StepAll(s, events, level), stream + AddsAll(s, events, level);
            Serves(s', c) || Cut(s', c, stream') || Ended(s', c, stream')
    ensures Ended(StepAll(s, events, level), c, stream + AddsAll(s, events, level)) ==> c in Counted(s, events, level)
    ensures level <= 0 && c in Counted(s, events, level) ==>
              Ended(StepAll(s, events, level), c, stream + AddsAll(s, events, level))
  {
    if events != [] {
      var n := |events| - 1;
      var before, read := StepAll(s, events[..n], level), stream + AddsAll(s, events[..n], level);
      CountedIsEnded(s, stream, events[..n], level, c);
      StepsKeep(s, stream, events[..n], level);
      StepFollows(before, events[n], level);
      Associative(stream, AddsAll(s, events[..n], level), Adds(before, events[n]));
      if Ended(before, c, read) {
        StepEnded(before, read, events[n], level, c);
      } else if Serves(before, c) {
        StepEnds(before, read, events[n], level, c);
      } else {
        StepCut(before, read, events[n], level, c);
      }
    }
  }

  // ---- Progress --------------------------------------------------------------------------

  /** The peer takes something, and fails no send before it refuses one. */
  predicate Willing(replies: seq<Sent>) { FirstAccepted(replies) && replies[0].count > 0 && !Fails(replies) }

  /** How often client c finds its peer writable. */
  function Turns(events: seq<Event>, c: nat): (n: nat) {
    if events == [] then 0
    else
      var n := |events| - 1;
      Turns(events[..n], c) + (if events[n].Write? && events[n].client == c then 1 else 0)
  }

  /** How much there is for a client to send. */
  function Total(s: State, c: nat): nat
    requires c < |s.clients|
  {
    match s.clients[c].mode
    case Buffer(data) => |data|
    case Descriptor => s.inpbytes
  }

  /** Nothing more will be read for this client. */
  predicate Settled(s: State, c: nat) {
    c < |s.clients| && (s.clients[c].mode.Buffer? || !s.open)
  }

  lemma WillingOffers(replies: seq<Sent>)
    requires FirstAccepted(replies) && replies[0].count > 0
    ensures Offered(replies) > 0
  {}

  /** A turn with a willing peer sends something, or finds that nothing is left. */
  lemma TurnMoves(s: State, stream: seq<byte>, c: nat, replies: seq<Sent>, level: int)
    requires StateValid(s, stream) && Serves(s, c) && Settled(s, c) && Willing(replies)
    ensures var s' := AfterSet(s, c, replies, level);
            Ended(s', c, stream) || (Serves(s', c) && s'.clients[c].bytes > s.clients[c].bytes)
  {
    AnswerIs(s, c, replies, level);
    StopsComplete(s, stream, c, replies, level);
    WillingOffers(replies);
    if !Exhausted(s, c) {
      PendingIsNext(s, stream, c);
      assert Pending(s, c) != [];
      assert SentBytes(s, c, replies, level) > 0;
    }
  }

  lemma StepSettled(s: State, stream: seq<byte>, e: Event, level: int, c: nat)
    requires StateValid(s, stream) && Settled(s, c)
    ensures Settled(Step(s, e, level), c) && Total(Step(s, e, level), c) == Total(s, c)
    ensures s.clients[c].mode.Descriptor? ==> stream + Adds(s, e) == stream
  {
    StepFollows(s, e, level);
  }

  lemma SentWithinTotal(s: State, stream: seq<byte>, c: nat)
    requires StateValid(s, stream) && c < |s.clients| && s.clients[c].isSet
    ensures s.clients[c].bytes <= Total(s, c)
  {}

  /** Among any other events, a client whose peer is willing at each of its turns has sent everything after
      at most one turn more than there are bytes left. */
  lemma {:induction false} Delivers(s: State, stream: seq<byte>, events: seq<Event>, level: int, c: nat)
    requires StateValid(s, stream) && Serves(s, c) && Settled(s, c)
    requires forall i :: 0 <= i < |events| && events[i].Write? && events[i].client == c ==> Willing(events[i].replies)
    ensures var s', stream' := StepAll(s, events, level), stream + AddsAll(s, events, level);
            && Settled(s', c) && Total(s', c) == Total(s, c)
            && (Ended(s', c, stream')
                || (Serves(s', c) && s'.clients[c].bytes >= s.clients[c].bytes + Turns(events, c)))
    ensures Turns(events, c) > Total(s, c) - s.clients[c].bytes ==>
              Ended(StepAll(s, events, level), c, stream + AddsAll(s, events, level)) && c in Counted(s, events, level)
  {
    if events != [] {
      var n := |events| - 1;
      var before, read := StepAll(s, events[..n], level), stream + AddsAll(s, events[..n], level);
      Delivers(s, stream, events[..n], level, c);
      StepsKeep(s, stream, events[..n], level);
      Associative(stream, AddsAll(s, events[..n], level), Adds(before, events[n]));
      DeliverStep(before, read, events[n], level, c);
    }
    StepsKeep(s, stream, events, level);
    CountedIsEnded(s, stream, events, level, c);
    if Serves(StepAll(s, events, level), c) {
      SentWithinTotal(StepAll(s, events, level), stream + AddsAll(s, events, level), c);
    }
  }

  lemma DeliverStep(s: State, stream: seq<byte>, e: Event, level: int, c: nat)
    requires StateValid(s, stream) && Settled(s, c) && (Serves(s, c) || Ended(s, c, stream))
    requires e.Write? && e.client == c ==> Willing(e.replies)
    ensures var s' := Step(s, e, level);
            && Settled(s', c) && Total(s', c) == Total(s, c)
            && (Ended(s', c, stream + Adds(s, e))
                || (Serves(s, c) && Serves(s', c) && s'.clients[c].bytes >= s.clients[c].bytes + Turns([e], c)))
  {
    assert stream + [] == stream;
    StepSettled(s, stream, e, level, c);
    if Ended(s, c, stream) {
      StepEnded(s, stream, e, level, c);
    } else if e.Write? && e.client == c {
      TurnMoves(s, stream, c, e.replies, level);
    } else {
      StepFollows(s, e, level);
    }
  }

  // ---- A real run ------------------------------------------------------------------------

  /** A client of an empty request that copies the input. */
  function Fresh(): State { State([], 0, true, [Client(true, Descriptor, Processing, 0, [])]) }

  lemma ThreeSteps(s: State, e0: Event, e1: Event, e2: Event, level: int)
    ensures var s2 := Step(Step(s, e0, level), e1, level);
            && StepAll(s, [e0, e1, e2], level) == Step(s2, e2, level)
            && AddsAll(s, [e0, e1, e2], level) == Adds(s, e0) + Adds(Step(s, e0, level), e1) + Adds(s2, e2)
            && (Counts(s2, e2, level) ==> e2.client in Counted(s, [e0, e1, e2], level))
  {
    var s1 := Step(s, e0, level);
    assert [e0, e1, e2][..2] == [e0, e1] && [e0, e1][..1] == [e0] && [e0][..0] == [];
    assert StepAll(s, [e0], level) == s1 && AddsAll(s, [e0], level) == Adds(s, e0);
    assert StepAll(s, [e0, e1], level) == Step(s1, e1, level);
    assert AddsAll(s, [e0, e1], level) == Adds(s, e0) + Adds(s1, e1);
  }

  lemma TwoBytesRead(a: byte, b: byte)
    ensures Step(Fresh(), Read([a, b], false), 1) == State([Input(0, 2, 2, [a, b])], 2, true, Fresh().clients)
    ensures Adds(Fresh(), Read([a, b], false)) == [a, b]
    ensures var s := State([Input(0, 2, 2, [a, b])], 2, true, Fresh().clients);
            Step(s, Read([], false), 1) == s.(open := false) && Adds(s, Read([], false)) == []
  {
    var s := State([Input(0, 2, 2, [a, b])], 2, true, Fresh().clients);
    assert [a, b][..2] == [a, b] && [] + [a, b] == [a, b] && [a, b] + [] == [a, b];
    assert WithRoom([], 0) == [Input(0, 0, 0, [])];
    assert WithRoom(s.inputs, 2) == s.inputs && Room(s.inputs) == 0;
    assert s.inputs[0 := Grow(s.inputs[0], [])] == s.inputs;
  }

  lemma OneByteSent(a: byte, b: byte)
    ensures var s := State([Input(0, 2, 2, [a, b])], 2, false, Fresh().clients);
            && Counts(s, Write(0, [Accepted(1)]), 1)
            && Step(s, Write(0, [Accepted(1)]), 1).clients == [Client(true, Descriptor, Processing, 1, [a])]
  {
    var s := State([Input(0, 2, 2, [a, b])], 2, false, Fresh().clients);
    assert Pending(s, 0) == [a, b];
    assert [a, b][..1] == [a] && [] + [a] == [a];
    AnswerIs(s, 0, [Accepted(1)], 1);
  }

  /** Two bytes arrive, the input ends, and at an XPA level the client is counted after the first. */
  lemma OneByteCounts(a: byte, b: byte)
    ensures var events := [Read([a, b], false), Read([], false), Write(0, [Accepted(1)])];
            && AddsAll(Fresh(), events, 1) == [a, b] && 0 in Counted(Fresh(), events, 1)
            && StepAll(Fresh(), events, 1).clients == [Client(true, Descriptor, Processing, 1, [a])]
  {
    TwoBytesRead(a, b);
    OneByteSent(a, b);
    ThreeSteps(Fresh(), Read([a, b], false), Read([], false), Write(0, [Accepted(1)]), 1);
  }
}
