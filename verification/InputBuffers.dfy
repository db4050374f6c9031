/** One input stream copied to many clients through shared buffers (libxpa/client.c). */
module InputBuffers {
  import opened Common
  import opened BufferState
  import opened BufferRuns

  class Request {
    var inputs: seq<Input>
    var inpbytes: nat
    var open: bool                   // ifd >= 0
    var clients: seq<Client>
    ghost var stream: seq<byte>      // everything read so far

    constructor (clients0: seq<Client>)
      requires forall c :: 0 <= c < |clients0| ==> clients0[c].bytes == 0 && clients0[c].out == []
      ensures Valid() && stream == [] && State() == BufferState.State([], 0, true, clients0)
    {
      inputs, inpbytes, open, clients := [], 0, true, clients0;
      stream := [];
    }

    function State(): State
      reads this
    {
      BufferState.State(inputs, inpbytes, open, clients)
    }

    ghost predicate Valid()
      reads this
    {
      Sound(State(), stream)
    }

    /** XPAClientNewInput. */
    method NewInput()
      modifies this`inputs
      ensures inputs == old(inputs) + [Input(inpbytes, inpbytes, 0, [])]
    {
      inputs := inputs + [Input(inpbytes, inpbytes, 0, [])];
    }

    /** The search of XPAClientProcessInput for a buffer with room. */
    method FindRoom() returns (k: nat)
      modifies this`inputs
      ensures k == Room(old(inputs)) && inputs == WithRoom(old(inputs), inpbytes)
    {
      k := 0;
      while k < |inputs|
        invariant k <= |inputs| && inputs == old(inputs)
        invariant forall j :: 0 <= j < k ==> inputs[j].bytes >= BIOSIZE
      {
        if inputs[k].bytes < BIOSIZE {
          return;
        }
        k := k + 1;
      }
      NewInput();
    }

    /** XPAClientProcessInput: `supply` is what the descriptor has to offer (nothing at the end of
        the input), `error` whether read fails.  What is read is appended to the stream. */
    method ProcessInput(supply: seq<byte>, error: bool) returns (got: int)
      requires Valid() && open
      modifies this`inputs, this`inpbytes, this`open, this`stream
      ensures Valid() && State() == AfterRead(old(State()), supply, error)
      ensures stream == old(stream) + Taken(old(State()), supply, error)
      ensures got == if error then 0 else ReadSize(old(State()), supply)
    {
      ReadSound(State(), stream, supply, error);
      got := ReadOnce(supply, error);
      assert Unfold(0);
    }

    /** Its body. */
    method ReadOnce(supply: seq<byte>, error: bool) returns (got: int)
      requires open
      modifies this`inputs, this`inpbytes, this`open, this`stream
      ensures IsRead(old(State()), old(stream), State(), stream, got, supply, error)
    {
      ghost var s := State();
      var cur := FindRoom();
      var get := Min(IOSIZE, BIOSIZE - inputs[cur].bytes);
      if error {
        FailedRead(s, stream, supply);
        return 0;
      }
      got := Min(get, |supply|);
      GoodRead(s, stream, supply, inputs, cur, got);
      inputs := inputs[cur := Grow(inputs[cur], supply[..got])];
      open, inpbytes, stream := got != 0, inpbytes + got, stream + supply[..got];
    }

    /** XPAClientFreeInput. */
    method FreeInput(k: nat)
      requires k < |inputs|
      modifies this`inputs
      ensures inputs == Without(old(inputs), k)
    {
      inputs := Without(inputs, k);
    }

    /** The check at the end of a buffer: free it if every client of the shared buffers is past it
        and it can no longer grow. */
    method Release(k: nat)
      requires k < |inputs|
      modifies this`inputs
      ensures inputs == if Spent(old(inputs)[k], clients, open) then Without(old(inputs), k) else old(inputs)
    {
      var left := 0;
      var i := 0;
      while i < |clients|
        invariant i <= |clients| && left == 0
        invariant forall c :: 0 <= c < i && clients[c].Draws() ==> Past(clients[c], inputs[k], open)
      {
        var client := clients[i];
        if client.isSet && client.mode.Descriptor? {
          if client.bytes >= inputs[k].end && (inputs[k].bytes >= BIOSIZE || !open) {
          } else {
            left := left + 1;
            break;
          }
        }
        i := i + 1;
      }
      if left == 0 {
        FreeInput(k);
      }
    }

    /** The search for the buffer that holds the next byte of a client. */
    method Find(c: nat) returns (k: nat)
      requires c < |clients|
      ensures k == Holder(inputs, clients[c].bytes)
    {
      k := 0;
      while k < |inputs|
        invariant k <= |inputs|
        invariant forall j :: 0 <= j < k ==> !(inputs[j].start <= clients[c].bytes < inputs[j].end)
      {
        if clients[c].bytes >= inputs[k].start && clients[c].bytes < inputs[k].end {
          return;
        }
        k := k + 1;
      }
    }

    /** A send of client c has accepted `data`. */
    method Account(c: nat, data: seq<byte>)
      requires c < |clients|
      modifies this`clients
      ensures clients == old(clients)[c := Sending(old(clients[c]), data)]
    {
      clients := clients[c := Sending(clients[c], data)];
    }

    /** XPAClientDataSent: the client now waits for the server to finish. */
    method Finish(c: nat)
      requires c < |clients|
      modifies this`clients
      ensures clients == old(clients)[c := old(clients[c]).(status := Waiting)]
    {
      clients := clients[c := clients[c].(status := Waiting)];
    }

    /** XPAClientSet for a client that copies the input. */
    method SetFromInput(c: nat, replies: seq<Sent>, level: int) returns (r: int)
      requires Valid() && c < |clients| && clients[c].Draws() && clients[c].status == Processing
      modifies this`clients, this`inputs
      ensures IsSet(old(State()), State(), r, c, replies, level)
    {
      ghost var s := State();
      var k := Find(c);
      if k == |inputs| {
        NoBuffer(s, c, replies, level);
        if !open {
          Finish(c);
          return 1;
        }
        return 0;
      }
      if open && inputs[k].bytes < BIOSIZE {
        Filling(s, c, replies, level);
        return 0;
      }
      SoundParts(s, stream);
      r := SendHeld(c, k, replies, level);
    }

    /** The part of it that sends from the buffer k. */
    method SendHeld(c: nat, k: nat, replies: seq<Sent>, level: int) returns (r: int)
      requires Holding(State(), c, k) && clients[c].Draws() && clients[c].status == Processing
      modifies this`clients, this`inputs
      ensures IsSet(old(State()), State(), r, c, replies, level)
    {
      ghost var s := State();
      var drained: bool;
      ghost var b: Burst;
      r, drained, b := SendInput(c, inputs[k], replies, level);
      if drained {
        Release(k);
      }
      FromBuffer(s, State(), r, c, k, b, replies, level);
    }

    /** Its loop: send until the buffer ends or the next send would block. */
    method SendInput(c: nat, inp: Input, replies: seq<Sent>, level: int) returns (r: int, drained: bool, ghost b: Burst)
      requires c < |clients| && clients[c].Draws() && clients[c].status == Processing
      requires inp.start <= clients[c].bytes <= inp.end == inp.start + |inp.buf|
      modifies this`clients
      ensures Leads(b, old(clients[c]), RestOf(inp, old(clients[c].bytes)), replies, 0, level)
      ensures clients == old(clients)[c := Close(b).0] && r == Close(b).1 && drained == b.end.Drained?
    {
      b := LeadsFirst(clients[c], RestOf(inp, clients[c].bytes), replies, level);
      ghost var cur := clients[c];
      var i := 0;
      while true
        invariant i <= |replies| && clients == old(clients)[c := cur]
        invariant inp.start <= cur.bytes <= inp.end && cur.status == Processing && cur.mode.Descriptor?
        invariant Leads(b, cur, RestOf(inp, cur.bytes), replies, i, level)
        decreases |replies| - i
      {
        var bytes := clients[c].bytes;
        var len := Min(IOSIZE, inp.end - bytes);
        ghost var left := RestOf(inp, bytes);
        LeadsNext(b, cur, left, replies, i, i + 1, level);
        UpdateTwice(old(clients), c, cur, cur.(status := Waiting));
        if clients[c].status == Processing && len <= 0 {
          return 0, true, b;
        }
        if i == |replies| {
          return 0, false, b;
        }
        match replies[i] {
          case Accepted(room) =>
            var got := Min(room, len);
            var data := RestOf(inp, bytes)[..got];
            UpdateTwice(old(clients), c, cur, Sending(cur, data));
            cur := Sending(cur, data);
            Account(c, data);
            assert left[got..] == RestOf(inp, cur.bytes);
            if level > 0 {
              return got, false, b;
            }
          case WouldBlock =>
            return 0, false, b;
          case Failed =>
            Finish(c);
            return -1, false, b;
        }
        i := i + 1;
      }
    }

    /** XPAClientSet for a client that sends a buffer of its own. */
    method SetFromBuffer(c: nat, replies: seq<Sent>, level: int) returns (r: int)
      requires Valid() && c < |clients|
      requires clients[c].isSet && clients[c].mode.Buffer? && clients[c].status == Processing
      modifies this`clients
      ensures IsSet(old(State()), State(), r, c, replies, level)
    {
      ghost var s := State();
      ghost var b;
      SoundParts(s, stream);
      r, b := SendBuffer(c, clients[c].mode.data, replies, level);
      OwnBuffer(s, State(), r, c, b, replies, level);
    }

    /** Its loop. */
    method SendBuffer(c: nat, data: seq<byte>, replies: seq<Sent>, level: int) returns (r: int, ghost b: Burst)
      requires c < |clients| && clients[c].mode == Buffer(data) && clients[c].status == Processing
      requires clients[c].bytes <= |data|
      modifies this`clients
      ensures Leads(b, old(clients[c]), data[old(clients[c].bytes)..], replies, 0, level)
      ensures clients == old(clients)[c := Close(b).0] && r == Close(b).1
    {
      b := LeadsFirst(clients[c], data[clients[c].bytes..], replies, level);
      var i := 0;
      while true
        invariant i <= |replies| && |clients| == |old(clients)| && clients == old(clients)[c := clients[c]]
        invariant clients[c].bytes <= |data| && clients[c].mode == Buffer(data) && clients[c].status == Processing
        invariant Leads(b, clients[c], data[clients[c].bytes..], replies, i, level)
        decreases |replies| - i
      {
        var bytes := clients[c].bytes;
        var len := Min(IOSIZE, |data| - bytes);
        LeadsNext(b, clients[c], data[bytes..], replies, i, i + 1, level);
        if len == 0 {
          Finish(c);
          return 1, b;
        }
        if i == |replies| {
          return 0, b;
        }
        match replies[i] {
          case Accepted(room) =>
            var got := Min(room, len);
            Account(c, data[bytes..][..got]);
            assert data[bytes..][got..] == data[bytes + got..];
            if level > 0 {
              return got, b;
            }
          case WouldBlock =>
            return 0, b;
          case Failed =>
            Finish(c);
            return -1, b;
        }
        i := i + 1;
      }
    }

    /** XPAClientSet.  `replies` are the results of its successive calls of send; when they run out,
        the next send would block. */
    method Set(c: nat, replies: seq<Sent>, level: int) returns (r: int)
      requires Valid() && c < |clients| && clients[c].isSet && clients[c].status == Processing
      modifies this`clients, this`inputs
      ensures Valid() && State() == AfterSet(old(State()), c, replies, level)
      ensures r == Value(old(State()), c, replies, level)
      ensures clients[c] == SentOn(old(State()), c, SentBytes(old(State()), c, replies, level),
                                   Stops(old(State()), c, replies, level))
    {
      AnswerIs(State(), c, replies, level);
      SetSound(State(), stream, c, replies, level);
      if clients[c].mode.Buffer? {
        r := SetFromBuffer(c, replies, level);
      } else {
        r := SetFromInput(c, replies, level);
      }
      assert Unfold(0);
    }

    /** Any interleaving of reads and sends, as XPAClientProcessSelect drives them: reads only while
        the input is open, sends only for clients that are still processing.  `done` collects the
        clients for which XPAClientSet has reported completion. */
    method Run(events: seq<Event>, level: int) returns (done: set<nat>)
      requires Valid()
      modifies this
      ensures Valid() && State() == StepAll(old(State()), events, level)
      ensures stream == old(stream) + AddsAll(old(State()), events, level)
      ensures done == Counted(old(State()), events, level)
    {
      ghost var s, before := State(), stream;
      done := {};
      assert before + [] == before;
      for i := 0 to |events|
        invariant Valid() && State() == StepAll(s, events[..i], level)
        invariant stream == before + AddsAll(s, events[..i], level)
        invariant done == Counted(s, events[..i], level)
      {
        assert events[..i + 1][..i] == events[..i];
        Associative(before, AddsAll(s, events[..i], level), Adds(State(), events[i]));
        assert stream + [] == stream;
        match events[i] {
          case Read(supply, error) =>
            if open {
              var got := ProcessInput(supply, error);
            }
          case Write(c, replies) =>
            if c < |clients| && clients[c].isSet && clients[c].status == Processing {
              AnswerIs(State(), c, replies, level);
              var r := Set(c, replies, level);
              if r > 0 {
                done := done + {c};
              }
            }
        }
      }
      assert events[..|events|] == events;
    }
  }
}
