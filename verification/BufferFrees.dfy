/** Which shared buffers are kept: those that some client still needs (libxpa/client.c). */
module BufferFrees {
  import opened Common
  import opened BufferState
  import opened BufferRuns

  ghost predicate SomeDraw(clients: seq<Client>) { exists c :: 0 <= c < |clients| && clients[c].Draws() }

  predicate Wants(c: Client, inp: Input) { c.Draws() && c.bytes < inp.end }

  /** Some client still needs a part of the buffer, or nothing was ever read into it. */
  ghost predicate Needed(inp: Input, clients: seq<Client>) {
    inp.start == inp.end || exists c :: 0 <= c < |clients| && Wants(clients[c], inp)
  }

  ghost predicate AllNeeded(s: State) {
    SomeDraw(s.clients) ==> forall k :: 0 <= k < |s.inputs| ==> Needed(s.inputs[k], s.clients)
  }

  lemma NeededBy(inp: Input, clients: seq<Client>, c: nat)
    requires c < |clients| && Wants(clients[c], inp)
    ensures Needed(inp, clients)
  {}

  // ---- Reading ---------------------------------------------------------------------------

  lemma ReadNeeds(s: State, stream: seq<byte>, supply: seq<byte>, error: bool)
    requires StateValid(s, stream) && s.open && AllNeeded(s)
    ensures AllNeeded(AfterRead(s, supply, error))
  {
    RoomIsLast(s, stream);
    var s' := AfterRead(s, supply, error);
    if d :| 0 <= d < |s.clients| && s.clients[d].Draws() {
      forall k | 0 <= k < |s'.inputs|
        ensures Needed(s'.inputs[k], s'.clients)
      {
        NeededAfterRead(s, stream, supply, error, d, k);
      }
    }
  }

  lemma NeededAfterRead(s: State, stream: seq<byte>, supply: seq<byte>, error: bool, d: nat, k: nat)
    requires StateValid(s, stream) && s.open && AllNeeded(s) && d < |s.clients| && s.clients[d].Draws()
    requires k < |AfterRead(s, supply, error).inputs|
    ensures Needed(AfterRead(s, supply, error).inputs[k], s.clients)
  {
    RoomIsLast(s, stream);
    var inputs, inp := WithRoom(s.inputs, s.inpbytes), AfterRead(s, supply, error).inputs[k];
    assert ClientValid(s.clients[d], s.inputs, stream);
    if k < |s.inputs| && inp == s.inputs[k] {
      assert Needed(s.inputs[k], s.clients);
    } else if inp.start < inp.end {
      GrowsPast(inputs, stream, k, inp);
      NeededBy(inp, s.clients, d);
    }
  }

  lemma GrowsPast(inputs: seq<Input>, stream: seq<byte>, k: nat, inp: Input)
    requires BuffersValid(inputs, stream, true) && k < |inputs| && inputs[k].bytes < BIOSIZE
    requires inp.end > inputs[k].end
    ensures inp.end > |stream|
  {}

  // ---- Sending ---------------------------------------------------------------------------

  /** What a client without an XPA level leaves of its buffer. */
  lemma DrainedExactly(s: State, stream: seq<byte>, c: nat, k: nat, replies: seq<Sent>, level: int)
    requires StateValid(s, stream) && level <= 0 && Copies(s, c, k) && k < |s.inputs| && Pending(s, c) != []
    ensures var n := SentBytes(s, c, replies, level);
            && s.clients[c].bytes + |Pending(s, c)| == s.inputs[k].end && Answer(s, c, replies, level).0.bytes
            == s.clients[c].bytes + n
            && (Transmit(s.clients[c], Pending(s, c), replies, level).end.Drained? <==> n == |Pending(s, c)|)
            && (s.inputs[k].bytes >= BIOSIZE || !s.open)
  {
    AnswerIs(s, c, replies, level);
    TransmitsOffered(s.clients[c], Pending(s, c), replies, level);
    assert Holds(s.inputs[k], stream);
  }

  /** A client that moves on, without passing the end of its buffer, needs the later ones as before. */
  lemma OthersNeeded(s: State, stream: seq<byte>, c: nat, client: Client, k0: nat, k: nat)
    requires StateValid(s, stream) && Copies(s, c, k0) && k0 < |s.inputs| && k < |s.inputs| && k != k0
    requires Needed(s.inputs[k], s.clients)
    requires client.Draws() == s.clients[c].Draws() && client.bytes <= s.inputs[k0].end
    ensures Needed(s.inputs[k], s.clients[c := client])
  {
    var clients := s.clients[c := client];
    if s.inputs[k].start < s.inputs[k].end {
      var d :| 0 <= d < |s.clients| && Wants(s.clients[d], s.inputs[k]);
      assert Holds(s.inputs[k], stream) && Holds(s.inputs[k0], stream);
      assert d == c ==> k0 < k;
      NeededBy(s.inputs[k], clients, d);
    }
  }

  lemma NotSpent(inp: Input, clients: seq<Client>, open: bool)
    requires !Spent(inp, clients, open) && (inp.bytes >= BIOSIZE || !open)
    ensures Needed(inp, clients)
  {
    var c :| 0 <= c < |clients| && clients[c].Draws() && !Past(clients[c], inp, open);
    NeededBy(inp, clients, c);
  }

  lemma SameNeeds(inp: Input, clients: seq<Client>, clients': seq<Client>)
    requires Needed(inp, clients) && |clients'| == |clients|
    requires forall c :: 0 <= c < |clients| && clients[c].Draws() ==>
               clients'[c].Draws() && clients'[c].bytes == clients[c].bytes
    ensures Needed(inp, clients')
  {
    if inp.start < inp.end {
      var c :| 0 <= c < |clients| && Wants(clients[c], inp);
      NeededBy(inp, clients', c);
    }
  }

  lemma SetNeeds(s: State, stream: seq<byte>, c: nat, replies: seq<Sent>, level: int)
    requires StateValid(s, stream) && c < |s.clients| && s.clients[c].isSet && AllNeeded(s) && level <= 0
    ensures AllNeeded(AfterSet(s, c, replies, level))
  {
    var s' := AfterSet(s, c, replies, level);
    SameDraw(s, c, replies, level);
    if SomeDraw(s.clients) {
      forall k | 0 <= k < |s'.inputs|
        ensures Needed(s'.inputs[k], s'.clients)
      {
        var j := WasThere(s, c, replies, level, k);
        NeededAfterSet(s, stream, c, replies, level, j, Holder(s.inputs, s.clients[c].bytes), s'.clients);
      }
    }
  }

  lemma SameDraw(s: State, c: nat, replies: seq<Sent>, level: int)
    requires c < |s.clients|
    ensures SomeDraw(AfterSet(s, c, replies, level).clients) ==> SomeDraw(s.clients)
  {
    AnswerIs(s, c, replies, level);
    var clients := AfterSet(s, c, replies, level).clients;
    if d :| 0 <= d < |clients| && clients[d].Draws() {
      assert s.clients[d].Draws();
    }
  }

  /** A buffer that is left, and was not the client's if that was freed. */
  lemma WasThere(s: State, c: nat, replies: seq<Sent>, level: int, k: nat) returns (j: nat)
    requires c < |s.clients| && k < |AfterSet(s, c, replies, level).inputs|
    ensures j < |s.inputs| && AfterSet(s, c, replies, level).inputs[k] == s.inputs[j]
    ensures AfterSet(s, c, replies, level).inputs == s.inputs || j != Holder(s.inputs, s.clients[c].bytes)
  {
    var h := Holder(s.inputs, s.clients[c].bytes);
    j := if AfterSet(s, c, replies, level).inputs == s.inputs || k < h then k else k + 1;
    if h < |s.inputs| {
      WithoutAt(s.inputs, h);
    }
  }

  lemma WithoutAt<T>(s: seq<T>, h: nat)
    requires h < |s|
    ensures |Without(s, h)| == |s| - 1
    ensures forall k :: 0 <= k < |s| - 1 ==> Without(s, h)[k] == s[if k < h then k else k + 1]
  {}

  lemma NeededAfterSet(s: State, stream: seq<byte>, c: nat, replies: seq<Sent>, level: int, j: nat, k: nat,
                       clients: seq<Client>)
    requires StateValid(s, stream) && c < |s.clients| && s.clients[c].isSet && level <= 0
    requires j < |s.inputs| && Needed(s.inputs[j], s.clients) && k == Holder(s.inputs, s.clients[c].bytes)
    requires AfterSet(s, c, replies, level).inputs == s.inputs || j != k
    requires clients == AfterSet(s, c, replies, level).clients
    ensures Needed(s.inputs[j], clients)
  {
    var client := Answer(s, c, replies, level).0;
    AnswerIs(s, c, replies, level);
    assert clients == s.clients[c := client] && client.Draws() == s.clients[c].Draws();
    if s.clients[c].mode.Buffer? || Pending(s, c) == [] {
      SameNeeds(s.inputs[j], s.clients, clients);
    } else {
      DrainedExactly(s, stream, c, k, replies, level);
      if j != k {
        OthersNeeded(s, stream, c, client, k, j);
      } else if client.bytes < s.inputs[k].end {
        NeededBy(s.inputs[k], clients, c);
      } else {
        KeptUnspent(s, c, k, replies, level, clients);
        NotSpent(s.inputs[k], clients, s.open);
      }
    }
  }

  lemma KeptUnspent(s: State, c: nat, k: nat, replies: seq<Sent>, level: int, clients: seq<Client>)
    requires Copies(s, c, k) && k < |s.inputs| && Pending(s, c) != []
    requires AfterSet(s, c, replies, level).inputs == s.inputs && clients == AfterSet(s, c, replies, level).clients
    requires Transmit(s.clients[c], Pending(s, c), replies, level).end.Drained?
    ensures !Spent(s.inputs[k], clients, s.open)
  {
    assert |Without(s.inputs, k)| != |s.inputs|;
  }

  // ---- Runs ------------------------------------------------------------------------------

  lemma StepNeeds(s: State, stream: seq<byte>, e: Event, level: int)
    requires StateValid(s, stream) && AllNeeded(s) && level <= 0
    ensures AllNeeded(Step(s, e, level))
  {
    match e
    case Read(supply, error) =>
      if s.open {
        ReadNeeds(s, stream, supply, error);
      }
    case Write(c, replies) =>
      if Serves(s, c) {
        SetNeeds(s, stream, c, replies, level);
      }
  }

  /** Without an XPA level, after every interleaving each buffer that is left has something that some client
      still needs: a buffer is freed as soon as the last client is past it. */
  lemma {:induction false} StepsNeed(s: State, stream: seq<byte>, events: seq<Event>, level: int)
    requires StateValid(s, stream) && AllNeeded(s) && level <= 0
    ensures AllNeeded(StepAll(s, events, level))
  {
    if events != [] {
      var n := |events| - 1;
      StepsNeed(s, stream, events[..n], level);
      StepsKeep(s, stream, events[..n], level);
      StepNeeds(StepAll(s, events[..n], level), stream + AddsAll(s, events[..n], level), events[n], level);
    }
  }

  /** When every client that copies the input has sent all of it, only empty buffers are left. */
  lemma AllFreed(s: State, stream: seq<byte>, events: seq<Event>, level: int)
    requires StateValid(s, stream) && AllNeeded(s) && level <= 0
    requires var s', stream' := StepAll(s, events, level), stream + AddsAll(s, events, level);
             SomeDraw(s'.clients)
             && forall c :: 0 <= c < |s'.clients| && s'.clients[c].Draws() ==> s'.clients[c].out == stream'
    ensures forall inp :: inp in StepAll(s, events, level).inputs ==> inp.start == inp.end && inp.buf == []
  {
    var s', stream' := StepAll(s, events, level), stream + AddsAll(s, events, level);
    StepsNeed(s, stream, events, level);
    StepsKeep(s, stream, events, level);
    forall k | 0 <= k < |s'.inputs|
      ensures s'.inputs[k].start == s'.inputs[k].end && s'.inputs[k].buf == []
    {
      assert Needed(s'.inputs[k], s'.clients) && Holds(s'.inputs[k], stream');
      forall c | 0 <= c < |s'.clients|
        ensures !Wants(s'.clients[c], s'.inputs[k])
      {
        assert ClientValid(s'.clients[c], s'.inputs, stream');
      }
    }
  }

  /** While more input may come, only whole buffers are sent from. */
  lemma OnlyWholeBuffers(s: State, stream: seq<byte>, c: nat, replies: seq<Sent>, level: int)
    requires StateValid(s, stream) && s.open && c < |s.clients| && s.clients[c].Draws()
    requires Answer(s, c, replies, level).0.bytes != s.clients[c].bytes
    ensures var p, q := s.clients[c].bytes, Answer(s, c, replies, level).0.bytes;
            exists k :: 0 <= k < |s.inputs| && s.inputs[k].bytes == BIOSIZE
                        && s.inputs[k].start <= p < q <= s.inputs[k].end
  {
    AnswerIs(s, c, replies, level);
    var k := Holder(s.inputs, s.clients[c].bytes);
    assert Holds(s.inputs[k], stream);
    assert s.inputs[k].bytes == BIOSIZE;
  }

  // ---- How much is read and sent ---------------------------------------------------------

  /** A read takes all that there is, or as much as one read may take, or as much as fills the buffer; it takes
      nothing only if there is nothing, which ends the input. */
  lemma ReadTakes(s: State, stream: seq<byte>, supply: seq<byte>)
    requires StateValid(s, stream) && s.open
    ensures var s', n := AfterRead(s, supply, false), |Taken(s, supply, false)|;
            && s'.inpbytes == s.inpbytes + n && Taken(s, supply, false) == supply[..n] && n <= 4096
            && (n == |supply| || n == 4096 || s'.inputs[|s'.inputs| - 1].bytes == 204800)
            && (n == 0 <==> supply == []) && (s'.open <==> supply != [])
  {
    RoomIsLast(s, stream);
  }

  /** The peer takes at least n bytes of each of the first m sends. */
  predicate TakesFirst(replies: seq<Sent>, m: nat, n: nat) {
    m <= |replies| && forall i :: 0 <= i < m ==> replies[i].Accepted? && replies[i].count >= n
  }

  lemma {:induction false} OfferedAtLeast(replies: seq<Sent>, m: nat)
    requires TakesFirst(replies, m, 4096)
    ensures Offered(replies) >= m * 4096
  {
    if m > 0 {
      assert replies[0].Accepted?;
      assert forall i :: 0 <= i < m - 1 ==> replies[1..][i] == replies[i + 1];
      OfferedAtLeast(replies[1..], m - 1);
    }
  }

  lemma {:induction false} OfferedAtMost(replies: seq<Sent>)
    ensures Offered(replies) <= |replies| * 4096
  {
    if FirstAccepted(replies) {
      OfferedAtMost(replies[1..]);
    }
  }

  /** A call sends at most one full send for each reply, only one at an XPA level; and a peer that takes full
      sends gets all that there is. */
  lemma SendSizes(s: State, c: nat, replies: seq<Sent>, level: int, m: nat)
    requires c < |s.clients|
    ensures var n := SentBytes(s, c, replies, level);
            && Answer(s, c, replies, level).0.bytes == s.clients[c].bytes + n
            && n <= |replies| * 4096 && (level > 0 ==> n <= 4096)
            && (level <= 0 && TakesFirst(replies, m, 4096) && |Pending(s, c)| <= m * 4096 ==> n == |Pending(s, c)|)
  {
    AnswerIs(s, c, replies, level);
    OfferedAtMost(replies);
    if TakesFirst(replies, m, 4096) {
      OfferedAtLeast(replies, m);
    }
  }

  // ---- How a refusal ends a call ---------------------------------------------------------

  /** What the first m sends take, if each takes all that is offered or what the peer has room for. */
  function TakenBy(replies: seq<Sent>, m: nat): nat
    requires m <= |replies| && forall i :: 0 <= i < m ==> replies[i].Accepted?
    decreases m
  {
    if m == 0 then 0 else TakenBy(replies, m - 1) + Min(replies[m - 1].count, 4096)
  }

  predicate RefusedAt(replies: seq<Sent>, m: nat) {
    m <= |replies| && (forall i :: 0 <= i < m ==> replies[i].Accepted?) && (m < |replies| ==> !replies[m].Accepted?)
  }

  lemma {:induction false} TakenFirst(replies: seq<Sent>, m: nat)
    requires 0 < m <= |replies| && forall i :: 0 <= i < m ==> replies[i].Accepted?
    ensures forall i :: 0 <= i < m - 1 ==> replies[1..][i].Accepted?
    ensures TakenBy(replies, m) == Min(replies[0].count, 4096) + TakenBy(replies[1..], m - 1)
    decreases m
  {
    assert forall i :: 0 <= i < m - 1 ==> replies[1..][i] == replies[i + 1];
    if m > 1 {
      TakenFirst(replies, m - 1);
    } else {
      assert TakenBy(replies, 0) == 0;
    }
  }

  lemma {:induction false} RefusalEnds(replies: seq<Sent>, m: nat)
    requires RefusedAt(replies, m)
    ensures Offered(replies) == TakenBy(replies, m) && (Fails(replies) <==> m < |replies| && replies[m].Failed?)
    decreases m
  {
    if m > 0 {
      assert replies[0].Accepted?;
      assert forall i :: 0 <= i < |replies| - 1 ==> replies[1..][i] == replies[i + 1];
      RefusalEnds(replies[1..], m - 1);
      TakenFirst(replies, m);
    }
  }

  /** Without an XPA level, a client with something to send sends what is taken before the first refusal; if
      that is not all, a failed send returns -1 and takes the client out of processing, and a send that
      would block returns 0 and leaves it there. */
  lemma RefusalTells(s: State, c: nat, replies: seq<Sent>, level: int, m: nat)
    requires c < |s.clients| && Pending(s, c) != [] && !Exhausted(s, c) && level <= 0 && RefusedAt(replies, m)
    ensures var (client, value) := Answer(s, c, replies, level);
            var taken := TakenBy(replies, m);
            if taken >= |Pending(s, c)| then client.out == s.clients[c].out + Pending(s, c) && value >= 0
            else
              && client.out == s.clients[c].out + Pending(s, c)[..taken]
              && if m < |replies| && replies[m].Failed? then value == -1 && client.status == Waiting
                 else value == 0 && client.status == s.clients[c].status
  {
    AnswerIs(s, c, replies, level);
    RefusalEnds(replies, m);
    assert Pending(s, c)[..|Pending(s, c)|] == Pending(s, c);
  }
}
