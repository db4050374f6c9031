/** The state of a broadcast request as a value, and what each read and each round of sends makes of
    it (libxpa/client.c).

    `read` and `send` are modelled by their results: a read delivers some bytes, fails or meets the
    end of the input; a send accepts some of the bytes offered, would block, or fails. */
module BufferState {
  import opened Common

  type byte = bv8

  const IOSIZE := 4096
  const BIOSIZE := 204800

  /** XPAInputRec: the part [start, end) of the input. */
  datatype Input = Input(start: nat, end: nat, bytes: nat, buf: seq<byte>)

  datatype Status = Processing | Waiting

  /** What a client sends: a buffer of its own, or the input (file-descriptor mode). */
  datatype Mode = Buffer(data: seq<byte>) | Descriptor

  /** XPAClientRec; `isSet` is type 's', and `out` is everything that send has accepted. */
  datatype Client = Client(isSet: bool, mode: Mode, status: Status, bytes: nat, out: seq<byte>) {
    /** The clients that draw on the shared buffers. */
    predicate Draws() { isSet && mode.Descriptor? }
  }

  /** `open` is ifd >= 0. */
  datatype State = State(inputs: seq<Input>, inpbytes: nat, open: bool, clients: seq<Client>)

  datatype Sent = Accepted(count: nat) | WouldBlock | Failed

  /** One round of select: the input has become readable, or a client writable. */
  datatype Event = Read(supply: seq<byte>, error: bool) | Write(client: nat, replies: seq<Sent>)

  // ---- What must hold --------------------------------------------------------------------

  ghost predicate Holds(inp: Input, stream: seq<byte>) {
    && inp.start <= inp.end <= |stream| && inp.bytes == inp.end - inp.start <= BIOSIZE
    && inp.buf == stream[inp.start..inp.end]
  }

  /** Each buffer holds its part of the stream, the parts are in order, and only the last one can
      still grow, at the end of the stream. */
  ghost predicate BuffersValid(inputs: seq<Input>, stream: seq<byte>, open: bool) {
    && (forall k :: 0 <= k < |inputs| ==> Holds(inputs[k], stream))
    && (forall j, k :: 0 <= j < k < |inputs| ==> inputs[j].end <= inputs[k].start)
    && (forall k :: 0 <= k < |inputs| && open && inputs[k].bytes < BIOSIZE ==>
          k == |inputs| - 1 && inputs[k].end == |stream|)
  }

  /** A client has sent a prefix of its data. */
  ghost predicate HasSent(c: Client, stream: seq<byte>) {
    match c.mode
    case Buffer(data) => c.bytes <= |data| && c.out == data[..c.bytes]
    case Descriptor => c.isSet ==> c.bytes <= |stream| && c.out == stream[..c.bytes]
  }

  ghost predicate InSome(p: int, inputs: seq<Input>) {
    exists k :: 0 <= k < |inputs| && inputs[k].start <= p < inputs[k].end
  }

  /** What a client still needs is in some buffer. */
  ghost predicate Covered(c: Client, inputs: seq<Input>, n: nat) {
    c.Draws() ==> forall p :: c.bytes <= p < n ==> InSome(p, inputs)
  }

  ghost predicate ClientValid(c: Client, inputs: seq<Input>, stream: seq<byte>) {
    HasSent(c, stream) && Covered(c, inputs, |stream|)
  }

  /** The state of a request that has read `stream`. */
  ghost predicate StateValid(s: State, stream: seq<byte>) {
    && s.inpbytes == |stream| && BuffersValid(s.inputs, stream, s.open)
    && forall c :: 0 <= c < |s.clients| ==> ClientValid(s.clients[c], s.inputs, stream)
  }

  /** The client has sent everything it ever will. */
  ghost predicate Complete(c: Client, stream: seq<byte>, open: bool) {
    match c.mode
    case Buffer(data) => c.out == data
    case Descriptor => !open && c.out == stream
  }

  // ---- Reading ---------------------------------------------------------------------------

  /** A buffer after data has been read into it. */
  function Grow(inp: Input, data: seq<byte>): Input {
    Input(inp.start, inp.end + |data|, inp.bytes + |data|, inp.buf + data)
  }

  /** The first buffer with room, or |inputs|. */
  function Room(inputs: seq<Input>): (k: nat)
    ensures k <= |inputs| && (k < |inputs| ==> inputs[k].bytes < BIOSIZE)
    ensures forall j :: 0 <= j < k ==> inputs[j].bytes >= BIOSIZE
  {
    if inputs == [] || inputs[0].bytes < BIOSIZE then 0 else 1 + Room(inputs[1..])
  }

  /** The buffers with one that has room. */
  function WithRoom(inputs: seq<Input>, inpbytes: nat): (r: seq<Input>)
    ensures Room(inputs) < |r| && r[Room(inputs)].bytes < BIOSIZE
  {
    if Room(inputs) < |inputs| then inputs else inputs + [Input(inpbytes, inpbytes, 0, [])]
  }

  /** How many bytes a successful read takes. */
  function ReadSize(s: State, supply: seq<byte>): (n: nat)
    ensures n <= |supply|
  {
    Min(Min(IOSIZE, BIOSIZE - WithRoom(s.inputs, s.inpbytes)[Room(s.inputs)].bytes), |supply|)
  }

  /** XPAClientProcessInput. */
  function AfterRead(s: State, supply: seq<byte>, error: bool): State {
    var inputs, k, n := WithRoom(s.inputs, s.inpbytes), Room(s.inputs), ReadSize(s, supply);
    if error then s.(inputs := inputs)
    else State(inputs[k := Grow(inputs[k], supply[..n])], s.inpbytes + n, n != 0, s.clients)
  }

  /** What the stream grows by. */
  function Taken(s: State, supply: seq<byte>, error: bool): seq<byte> {
    if error then [] else supply[..ReadSize(s, supply)]
  }

  // ---- Sending ---------------------------------------------------------------------------

  function Sending(c: Client, data: seq<byte>): Client { c.(bytes := c.bytes + |data|, out := c.out + data) }

  /** How a series of sends ends: nothing is left, the next send would block, a send has failed, or,
      at an XPA level, one send has been made. */
  datatype End = Drained | Blocked | Broken | Reported(count: int)

  datatype Burst = Burst(client: Client, left: seq<byte>, end: End)

  /** Successive sends of at most IOSIZE bytes of `left`. */
  function Transmit(c: Client, left: seq<byte>, replies: seq<Sent>, level: int): Burst
    decreases |replies|
  {
    if left == [] then Burst(c, left, Drained)
    else if replies == [] then Burst(c, left, Blocked)
    else
      match replies[0]
      case WouldBlock => Burst(c, left, Blocked)
      case Failed => Burst(c, left, Broken)
      case Accepted(room) =>
        var got := Min(room, Min(IOSIZE, |left|));
        if level > 0 then Burst(Sending(c, left[..got]), left[got..], Reported(got))
        else Transmit(Sending(c, left[..got]), left[got..], replies[1..], level)
  }

  /** The buffer that holds the next byte of a client, or |inputs|. */
  function Holder(inputs: seq<Input>, p: nat): (k: nat)
    ensures k <= |inputs| && (k < |inputs| ==> inputs[k].start <= p < inputs[k].end)
    ensures forall j :: 0 <= j < k ==> !(inputs[j].start <= p < inputs[j].end)
  {
    if inputs == [] || inputs[0].start <= p < inputs[0].end then 0 else 1 + Holder(inputs[1..], p)
  }

  /** The client needs nothing of the buffer, and never will. */
  predicate Past(c: Client, inp: Input, open: bool) {
    c.bytes >= inp.end && (inp.bytes >= BIOSIZE || !open)
  }

  predicate Spent(inp: Input, clients: seq<Client>, open: bool) {
    forall c :: 0 <= c < |clients| && clients[c].Draws() ==> Past(clients[c], inp, open)
  }

  function Without<T>(s: seq<T>, k: nat): seq<T>
    requires k < |s|
  {
    s[..k] + s[k + 1..]
  }

  /** What the client would send now: nothing, if it has to wait for its buffer to fill. */
  function Pending(s: State, c: nat): seq<byte>
    requires c < |s.clients|
  {
    var client := s.clients[c];
    match client.mode
    case Buffer(data) => if client.bytes <= |data| then data[client.bytes..] else []
    case Descriptor =>
      var k := Holder(s.inputs, client.bytes);
      if k == |s.inputs| || (s.open && s.inputs[k].bytes < BIOSIZE) then []
      else
        var inp := s.inputs[k];
        if client.bytes - inp.start <= |inp.buf| then inp.buf[client.bytes - inp.start..] else []
  }

  /** Nothing is left to send and nothing more will come. */
  predicate Exhausted(s: State, c: nat)
    requires c < |s.clients|
  {
    match s.clients[c].mode
    case Buffer(data) => s.clients[c].bytes == |data|
    case Descriptor => !s.open && Holder(s.inputs, s.clients[c].bytes) == |s.inputs|
  }

  /** The client, and the value of XPAClientSet, when a series of sends is over. */
  function Close(b: Burst): (Client, int) {
    match b.end
    case Drained => if b.client.mode.Buffer? then (b.client.(status := Waiting), 1) else (b.client, 0)
    case Blocked => (b.client, 0)
    case Broken => (b.client.(status := Waiting), -1)
    case Reported(n) => (b.client, n)
  }

  /** XPAClientSet for client c: the client afterwards and the value returned. */
  function Answer(s: State, c: nat, replies: seq<Sent>, level: int): (Client, int)
    requires c < |s.clients|
  {
    if Exhausted(s, c) then (s.clients[c].(status := Waiting), 1)
    else if Pending(s, c) == [] then (s.clients[c], 0)
    else Close(Transmit(s.clients[c], Pending(s, c), replies, level))
  }

  /** The buffers afterwards: the one that has been drained is freed if it is spent. */
  function AfterSet(s: State, c: nat, replies: seq<Sent>, level: int): State
    requires c < |s.clients|
  {
    var clients := s.clients[c := Answer(s, c, replies, level).0];
    var k := Holder(s.inputs, s.clients[c].bytes);
    if s.clients[c].mode.Descriptor? && Pending(s, c) != []
       && Transmit(s.clients[c], Pending(s, c), replies, level).end.Drained?
       && k < |s.inputs| && Spent(s.inputs[k], clients, s.open)
    then s.(clients := clients, inputs := Without(s.inputs, k))
    else s.(clients := clients)
  }

  // ---- A series of sends -----------------------------------------------------------------

  predicate FirstAccepted(replies: seq<Sent>) { replies != [] && replies[0].Accepted? }

  /** How many bytes the peer takes before it first refuses. */
  function Offered(replies: seq<Sent>): (n: nat) {
    if !FirstAccepted(replies) then 0
    else Min(replies[0].count, IOSIZE) + Offered(replies[1..])
  }

  /** The peer's first refusal is a failure. */
  predicate Fails(replies: seq<Sent>) {
    replies != [] && (replies[0].Failed? || (replies[0].Accepted? && Fails(replies[1..])))
  }

  function EndAfter(n: nat, replies: seq<Sent>): End {
    if n <= Offered(replies) then Drained else if Fails(replies) then Broken else Blocked
  }

  /** How many of n bytes the first send takes. */
  function First(n: nat, replies: seq<Sent>): (got: nat)
    requires FirstAccepted(replies)
    ensures got <= n
  {
    Min(replies[0].count, Min(IOSIZE, n))
  }

  lemma OfferedFirst(n: nat, replies: seq<Sent>)
    requires FirstAccepted(replies)
    ensures var got := First(n, replies);
            && Min(n, Offered(replies)) == got + Min(n - got, Offered(replies[1..]))
            && EndAfter(n, replies) == EndAfter(n - got, replies[1..])
  {}

  /** Without an XPA level, a series of sends takes as much of what is left as the peer takes before it
      refuses; it is drained if that is everything, and otherwise the refusal tells how it ends. */
  lemma {:induction false} TransmitsOffered(c: Client, left: seq<byte>, replies: seq<Sent>, level: int)
    requires level <= 0
    ensures Transmit(c, left, replies, level)
         == OfferedBurst(c, left, Min(|left|, Offered(replies)), EndAfter(|left|, replies))
    decreases |replies|
  {
    if left == [] || !FirstAccepted(replies) {
      assert Min(|left|, Offered(replies)) == 0;
      assert c.out + [] == c.out && left[..0] == [] && left[0..] == left;
    } else {
      var got := First(|left|, replies);
      var m := Min(|left| - got, Offered(replies[1..]));
      OfferedFirst(|left|, replies);
      TransmitFirst(c, left, replies, level, got);
      TransmitsOffered(Sending(c, left[..got]), left[got..], replies[1..], level);
      SendingTwice(c, left, got, m);
    }
  }

  lemma TransmitFirst(c: Client, left: seq<byte>, replies: seq<Sent>, level: int, got: nat)
    requires level <= 0 && left != [] && FirstAccepted(replies) && got == First(|left|, replies)
    ensures Transmit(c, left, replies, level) == Transmit(Sending(c, left[..got]), left[got..], replies[1..], level)
  {}

  function OfferedBurst(c: Client, left: seq<byte>, n: nat, end: End): Burst
    requires n <= |left|
  {
    Burst(Sending(c, left[..n]), left[n..], end)
  }

  lemma SendingTwice(c: Client, left: seq<byte>, got: nat, m: nat)
    requires got + m <= |left|
    ensures Sending(Sending(c, left[..got]), left[got..][..m]) == Sending(c, left[..got + m])
    ensures left[got..][m..] == left[got + m..]
  {
    assert left[..got] + left[got..][..m] == left[..got + m];
    Associative(c.out, left[..got], left[got..][..m]);
  }

  /** At an XPA level there is at most one send. */
  lemma TransmitsOnce(c: Client, left: seq<byte>, replies: seq<Sent>, level: int)
    requires level > 0 && left != []
    ensures FirstAccepted(replies) ==>
              var n := First(|left|, replies);
              Transmit(c, left, replies, level) == OfferedBurst(c, left, n, Reported(n))
    ensures !FirstAccepted(replies) ==>
              Transmit(c, left, replies, level) == Burst(c, left, if Fails(replies) then Broken else Blocked)
  {}

  /** The sends from the i-th on lead to `b`. */
  ghost predicate Leads(b: Burst, c: Client, left: seq<byte>, replies: seq<Sent>, i: nat, level: int) {
    forall n {:trigger Unfold(n)} :: Unfold(n) ==> i <= |replies| && b == Transmit(c, left, replies[i..], level)
  }

  lemma LeadsFirst(c: Client, left: seq<byte>, replies: seq<Sent>, level: int) returns (b: Burst)
    ensures Leads(b, c, left, replies, 0, level)
  {
    b := Transmit(c, left, replies, level);
    assert replies[0..] == replies;
  }

  /** One turn of the loop of sends. */
  lemma LeadsNext(b: Burst, c: Client, left: seq<byte>, replies: seq<Sent>, i: nat, next: nat, level: int)
    requires Leads(b, c, left, replies, i, level) && next == i + 1
    ensures left == [] ==> b == Burst(c, left, Drained)
    ensures left != [] && i == |replies| ==> b == Burst(c, left, Blocked)
    ensures left != [] && i < |replies| && replies[i].WouldBlock? ==> b == Burst(c, left, Blocked)
    ensures left != [] && i < |replies| && replies[i].Failed? ==> b == Burst(c, left, Broken)
    ensures left != [] && i < |replies| && replies[i].Accepted? ==>
              var got := Min(replies[i].count, Min(IOSIZE, |left|));
              if level > 0 then b == OfferedBurst(c, left, got, Reported(got))
              else Leads(b, Sending(c, left[..got]), left[got..], replies, next, level)
  {
    assert Unfold(0);
    if i < |replies| {
      assert replies[i..][0] == replies[i] && replies[i..][1..] == replies[i + 1..];
    }
  }

  // ---- The cases of a call ---------------------------------------------------------------

  /** s' and r are the state and the value after XPAClientSet. */
  ghost predicate IsSet(s: State, s': State, r: int, c: nat, replies: seq<Sent>, level: int) {
    forall n {:trigger Unfold(n)} :: Unfold(n) ==>
      c < |s.clients| && s' == AfterSet(s, c, replies, level) && r == Answer(s, c, replies, level).1
  }

  predicate Copies(s: State, c: nat, k: nat) {
    c < |s.clients| && s.clients[c].mode.Descriptor? && k == Holder(s.inputs, s.clients[c].bytes)
  }

  /** No buffer holds the next byte of a client that copies the input. */
  lemma NoBuffer(s: State, c: nat, replies: seq<Sent>, level: int)
    requires Copies(s, c, |s.inputs|)
    ensures s.open ==> IsSet(s, s, 0, c, replies, level)
    ensures !s.open ==>
              IsSet(s, s.(clients := s.clients[c := s.clients[c].(status := Waiting)]), 1, c, replies, level)
  {
    assert s.clients[c := s.clients[c]] == s.clients;
  }

  /** The buffer can still grow. */
  lemma Filling(s: State, c: nat, replies: seq<Sent>, level: int)
    requires c < |s.clients| && Copies(s, c, Holder(s.inputs, s.clients[c].bytes))
    requires var k := Holder(s.inputs, s.clients[c].bytes); k < |s.inputs| && s.open && s.inputs[k].bytes < BIOSIZE
    ensures IsSet(s, s, 0, c, replies, level)
  {
    assert s.clients[c := s.clients[c]] == s.clients;
  }

  /** A client that need not wait for the buffer k to fill. */
  predicate Holding(s: State, c: nat, k: nat) {
    && Copies(s, c, k) && k < |s.inputs| && !(s.open && s.inputs[k].bytes < BIOSIZE)
    && |s.inputs[k].buf| == s.inputs[k].end - s.inputs[k].start
  }

  function RestOf(inp: Input, p: nat): seq<byte>
    requires inp.start <= p && p - inp.start <= |inp.buf|
  {
    inp.buf[p - inp.start..]
  }

  lemma PendingInBuffer(s: State, c: nat, k: nat)
    requires Holding(s, c, k)
    ensures Pending(s, c) == RestOf(s.inputs[k], s.clients[c].bytes) != [] && !Exhausted(s, c)
  {}

  lemma AfterSends(s: State, c: nat, k: nat, b: Burst, replies: seq<Sent>, level: int)
    requires Copies(s, c, k) && k < |s.inputs| && Pending(s, c) != [] && !Exhausted(s, c)
    requires b == Transmit(s.clients[c], Pending(s, c), replies, level)
    ensures Answer(s, c, replies, level) == Close(b) && AfterSet(s, c, replies, level) == Rest(s, c, k, b)
  {}

  lemma LeadsWhole(b: Burst, c: Client, left: seq<byte>, replies: seq<Sent>, level: int)
    requires Leads(b, c, left, replies, 0, level)
    ensures b == Transmit(c, left, replies, level)
  {
    assert Unfold(0);
    assert replies[0..] == replies;
  }

  /** It sends the rest of the buffer, which is then freed if it is spent. */
  lemma FromBuffer(s: State, s': State, r: int, c: nat, k: nat, b: Burst, replies: seq<Sent>, level: int)
    requires Holding(s, c, k) && Leads(b, s.clients[c], RestOf(s.inputs[k], s.clients[c].bytes), replies, 0, level)
    requires s' == Rest(s, c, k, b) && r == Close(b).1
    ensures IsSet(s, s', r, c, replies, level)
  {
    PendingInBuffer(s, c, k);
    LeadsWhole(b, s.clients[c], Pending(s, c), replies, level);
    AfterSends(s, c, k, b, replies, level);
  }

  function Rest(s: State, c: nat, k: nat, b: Burst): State
    requires c < |s.clients| && k < |s.inputs|
  {
    var clients := s.clients[c := Close(b).0];
    if b.end.Drained? && Spent(s.inputs[k], clients, s.open)
    then s.(clients := clients, inputs := Without(s.inputs, k)) else s.(clients := clients)
  }

  /** It sends the rest of its own buffer. */
  lemma OwnBuffer(s: State, s': State, r: int, c: nat, b: Burst, replies: seq<Sent>, level: int)
    requires c < |s.clients| && s.clients[c].mode.Buffer? && s.clients[c].bytes <= |s.clients[c].mode.data|
    requires Leads(b, s.clients[c], s.clients[c].mode.data[s.clients[c].bytes..], replies, 0, level)
    requires s' == s.(clients := s.clients[c := Close(b).0]) && r == Close(b).1
    ensures IsSet(s, s', r, c, replies, level)
  {
    LeadsWhole(b, s.clients[c], s.clients[c].mode.data[s.clients[c].bytes..], replies, level);
  }

  lemma UpdateTwice<T>(s: seq<T>, c: nat, x: T, y: T)
    requires c < |s|
    ensures s[c := x][c := y] == s[c := y]
  {}

  // ---- The invariant over every step -----------------------------------------------------

  lemma WithoutBuffers(inputs: seq<Input>, k: nat, stream: seq<byte>, open: bool)
    requires BuffersValid(inputs, stream, open) && k < |inputs|
    ensures BuffersValid(Without(inputs, k), stream, open)
  {}

  lemma WithoutCovers(inputs: seq<Input>, k: nat, c: Client, n: nat)
    requires Covered(c, inputs, n) && k < |inputs| && (c.Draws() ==> c.bytes >= inputs[k].end)
    ensures Covered(c, Without(inputs, k), n)
  {
    var inputs' := Without(inputs, k);
    if c.Draws() {
      forall p | c.bytes <= p < n
        ensures InSome(p, inputs')
      {
        assert InSome(p, inputs);
        var j :| 0 <= j < |inputs| && inputs[j].start <= p < inputs[j].end;
        assert inputs'[if j < k then j else j - 1] == inputs[j];
      }
    }
  }

  /** A buffer that every client of the shared buffers is past can go. */
  lemma WithoutValid(s: State, k: nat, stream: seq<byte>)
    requires StateValid(s, stream) && k < |s.inputs|
    requires forall c :: 0 <= c < |s.clients| && s.clients[c].Draws() ==> s.clients[c].bytes >= s.inputs[k].end
    ensures StateValid(s.(inputs := Without(s.inputs, k)), stream)
  {
    WithoutBuffers(s.inputs, k, stream, s.open);
    forall c | 0 <= c < |s.clients|
      ensures ClientValid(s.clients[c], Without(s.inputs, k), stream)
    {
      WithoutCovers(s.inputs, k, s.clients[c], |stream|);
    }
  }

  /** Coverage only needs the parts to stay in some buffer. */
  lemma CoveredByMore(c: Client, inputs: seq<Input>, inputs': seq<Input>, n: nat)
    requires Covered(c, inputs, n)
    requires |inputs| <= |inputs'|
    requires forall k :: 0 <= k < |inputs| ==>
               inputs'[k].start == inputs[k].start && inputs[k].end <= inputs'[k].end
    ensures Covered(c, inputs', n)
  {
    if c.Draws() {
      forall p | c.bytes <= p < n
        ensures InSome(p, inputs')
      {
        assert InSome(p, inputs);
        var k :| 0 <= k < |inputs| && inputs[k].start <= p < inputs[k].end;
        assert inputs'[k].start <= p < inputs'[k].end;
      }
    }
  }

  /** Appending what was read to the last buffer and to the stream. */
  lemma Append(inputs: seq<Input>, inputs': seq<Input>, stream: seq<byte>, data: seq<byte>, clients: seq<Client>)
    requires inputs != [] && BuffersValid(inputs, stream, true)
    requires inputs' == inputs[|inputs| - 1 := Grow(inputs[|inputs| - 1], data)]
    requires inputs[|inputs| - 1].bytes < BIOSIZE && inputs[|inputs| - 1].bytes + |data| <= BIOSIZE
    requires forall c :: 0 <= c < |clients| ==> ClientValid(clients[c], inputs, stream)
    ensures BuffersValid(inputs', stream + data, true) && BuffersValid(inputs', stream + data, false)
    ensures forall c :: 0 <= c < |clients| ==> ClientValid(clients[c], inputs', stream + data)
  {
    forall k | 0 <= k < |inputs|
      ensures Holds(inputs'[k], stream + data)
    {
      HoldsLonger(inputs[k], stream, data);
    }
    forall c | 0 <= c < |clients|
      ensures ClientValid(clients[c], inputs', stream + data)
    {
      ClientAppend(clients[c], inputs, stream, data);
    }
  }

  lemma HoldsLonger(inp: Input, stream: seq<byte>, data: seq<byte>)
    requires Holds(inp, stream)
    ensures Holds(inp, stream + data)
    ensures inp.end == |stream| && inp.bytes + |data| <= BIOSIZE ==> Holds(Grow(inp, data), stream + data)
  {
    assert (stream + data)[inp.start..inp.end] == stream[inp.start..inp.end];
    if inp.end == |stream| {
      assert (stream + data)[inp.start..inp.end + |data|] == stream[inp.start..] + data;
    }
  }

  lemma ClientAppend(c: Client, inputs: seq<Input>, stream: seq<byte>, data: seq<byte>)
    requires inputs != [] && inputs[|inputs| - 1].start <= inputs[|inputs| - 1].end == |stream|
    requires ClientValid(c, inputs, stream)
    ensures ClientValid(c, inputs[|inputs| - 1 := Grow(inputs[|inputs| - 1], data)], stream + data)
  {
    var l := |inputs| - 1;
    var inputs' := inputs[l := Grow(inputs[l], data)];
    if c.Draws() {
      assert (stream + data)[..c.bytes] == stream[..c.bytes];
      CoveredByMore(c, inputs, inputs', |stream|);
      forall p | c.bytes <= p < |stream + data|
        ensures InSome(p, inputs')
      {
        if p >= |stream| {
          assert inputs'[l].start <= p < inputs'[l].end;
        }
      }
    }
  }

  /** The buffer with room is the last one. */
  lemma RoomIsLast(s: State, stream: seq<byte>)
    requires StateValid(s, stream) && s.open
    ensures Room(s.inputs) == |WithRoom(s.inputs, s.inpbytes)| - 1
    ensures BuffersValid(WithRoom(s.inputs, s.inpbytes), stream, true)
  {}

  lemma WithRoomKeeps(s: State, stream: seq<byte>)
    requires StateValid(s, stream) && s.open
    ensures StateValid(s.(inputs := WithRoom(s.inputs, s.inpbytes)), stream)
  {
    RoomIsLast(s, stream);
    forall c | 0 <= c < |s.clients|
      ensures ClientValid(s.clients[c], WithRoom(s.inputs, s.inpbytes), stream)
    {
      CoveredByMore(s.clients[c], s.inputs, WithRoom(s.inputs, s.inpbytes), |stream|);
    }
  }

  lemma ReadKeeps(s: State, stream: seq<byte>, supply: seq<byte>, error: bool)
    requires StateValid(s, stream) && s.open
    ensures StateValid(AfterRead(s, supply, error), stream + Taken(s, supply, error))
  {
    RoomIsLast(s, stream);
    WithRoomKeeps(s, stream);
    if error {
      assert stream + [] == stream;
    } else {
      var inputs, data := WithRoom(s.inputs, s.inpbytes), Taken(s, supply, error);
      AfterReadIs(s, supply, inputs, |inputs| - 1, data);
      Grown(s.(inputs := inputs), stream, data, data != []);
    }
  }

  lemma AfterReadIs(s: State, supply: seq<byte>, inputs: seq<Input>, k: nat, data: seq<byte>)
    requires inputs == WithRoom(s.inputs, s.inpbytes) && k == Room(s.inputs) && data == Taken(s, supply, false)
    ensures AfterRead(s, supply, false)
         == State(inputs[k := Grow(inputs[k], data)], s.inpbytes + |data|, data != [], s.clients)
    ensures inputs[k].bytes < BIOSIZE && inputs[k].bytes + |data| <= BIOSIZE
  {}

  /** Data read into the last buffer. */
  lemma Grown(s: State, stream: seq<byte>, data: seq<byte>, more: bool)
    requires StateValid(s, stream) && s.open && s.inputs != []
    requires s.inputs[|s.inputs| - 1].bytes < BIOSIZE && s.inputs[|s.inputs| - 1].bytes + |data| <= BIOSIZE
    ensures var k := |s.inputs| - 1;
            StateValid(State(s.inputs[k := Grow(s.inputs[k], data)], s.inpbytes + |data|, more, s.clients),
                       stream + data)
  {
    var k := |s.inputs| - 1;
    Append(s.inputs, s.inputs[k := Grow(s.inputs[k], data)], stream, data, s.clients);
  }

  // The invariant as a whole, and a read, for proofs that do not look inside: the definitions only
  // unfold where a proof mentions Unfold.

  ghost predicate Sound(s: State, stream: seq<byte>) {
    forall n {:trigger Unfold(n)} :: Unfold(n) ==> StateValid(s, stream)
  }

  /** s', stream' and got are the state, the stream and the number of bytes after a read. */
  ghost predicate IsRead(s: State, stream: seq<byte>, s': State, stream': seq<byte>, got: int, supply: seq<byte>,
                         error: bool) {
    forall n {:trigger Unfold(n)} :: Unfold(n) ==>
      && s' == AfterRead(s, supply, error) && stream' == stream + Taken(s, supply, error)
      && got == if error then 0 else ReadSize(s, supply)
  }

  lemma FailedRead(s: State, stream: seq<byte>, supply: seq<byte>)
    ensures IsRead(s, stream, s.(inputs := WithRoom(s.inputs, s.inpbytes)), stream, 0, supply, true)
  {
    assert stream + [] == stream;
  }

  lemma GoodRead(s: State, stream: seq<byte>, supply: seq<byte>, inputs: seq<Input>, k: nat, got: nat)
    requires inputs == WithRoom(s.inputs, s.inpbytes) && k == Room(s.inputs)
    requires got == Min(Min(IOSIZE, BIOSIZE - inputs[k].bytes), |supply|)
    ensures IsRead(s, stream, State(inputs[k := Grow(inputs[k], supply[..got])], s.inpbytes + got, got != 0, s.clients),
                   stream + supply[..got], got, supply, false)
  {}

  lemma ReadSound(s: State, stream: seq<byte>, supply: seq<byte>, error: bool)
    requires Sound(s, stream) && s.open
    ensures Sound(AfterRead(s, supply, error), stream + Taken(s, supply, error))
  {
    assert Unfold(0);
    ReadKeeps(s, stream, supply, error);
  }

  lemma SetSound(s: State, stream: seq<byte>, c: nat, replies: seq<Sent>, level: int)
    requires Sound(s, stream) && c < |s.clients| && s.clients[c].isSet && s.clients[c].status == Processing
    ensures Sound(AfterSet(s, c, replies, level), stream)
  {
    assert Unfold(0);
    SetKeeps(s, stream, c, replies, level);
  }

  /** What the loops of sends need to know. */
  lemma SoundParts(s: State, stream: seq<byte>)
    requires Sound(s, stream)
    ensures forall k :: 0 <= k < |s.inputs| ==> |s.inputs[k].buf| == s.inputs[k].end - s.inputs[k].start
    ensures forall c :: 0 <= c < |s.clients| && s.clients[c].mode.Buffer? ==>
                    s.clients[c].bytes <= |s.clients[c].mode.data|
  {
    assert Unfold(0);
    forall k | 0 <= k < |s.inputs|
      ensures |s.inputs[k].buf| == s.inputs[k].end - s.inputs[k].start
    {
      assert Holds(s.inputs[k], stream);
    }
    forall c | 0 <= c < |s.clients| && s.clients[c].mode.Buffer?
      ensures s.clients[c].bytes <= |s.clients[c].mode.data|
    {
      assert HasSent(s.clients[c], stream);
    }
  }

  /** `p` comes next in the data of the client: all of its own buffer that is left, or a part of the input. */
  ghost predicate IsNext(c: Client, stream: seq<byte>, p: seq<byte>) {
    match c.mode
    case Buffer(data) => c.bytes + |p| == |data| && p == data[c.bytes..c.bytes + |p|]
    case Descriptor => c.bytes + |p| <= |stream| && p == stream[c.bytes..c.bytes + |p|]
  }

  /** What a client sends next comes next in its data. */
  lemma PendingIsNext(s: State, stream: seq<byte>, c: nat)
    requires StateValid(s, stream) && c < |s.clients| && s.clients[c].isSet
    ensures IsNext(s.clients[c], stream, Pending(s, c))
  {
    var client := s.clients[c];
    assert HasSent(client, stream);
    if client.mode.Descriptor? {
      var k := Holder(s.inputs, client.bytes);
      if k < |s.inputs| {
        RestOfBuffer(s.inputs[k], stream, client.bytes);
      }
    }
  }

  lemma RestOfBuffer(inp: Input, stream: seq<byte>, p: nat)
    requires Holds(inp, stream) && inp.start <= p <= inp.end
    ensures p - inp.start <= |inp.buf| && inp.buf[p - inp.start..] == stream[p..inp.end]
  {}

  /** A client that has sent n more bytes of what comes next, and perhaps is waiting now. */
  lemma SendingKeeps(s: State, stream: seq<byte>, c: nat, n: nat, client: Client)
    requires StateValid(s, stream) && c < |s.clients| && s.clients[c].isSet && n <= |Pending(s, c)|
    requires client.(status := Processing) == Sending(s.clients[c], Pending(s, c)[..n]).(status := Processing)
    ensures StateValid(s.(clients := s.clients[c := client]), stream)
  {
    PendingIsNext(s, stream, c);
    ClientSends(s.clients[c], s.inputs, stream, Pending(s, c), n, client);
    WithClient(s, stream, c, client);
  }

  lemma WithClient(s: State, stream: seq<byte>, c: nat, client: Client)
    requires StateValid(s, stream) && c < |s.clients| && ClientValid(client, s.inputs, stream)
    ensures StateValid(s.(clients := s.clients[c := client]), stream)
  {}

  lemma ClientSends(c: Client, inputs: seq<Input>, stream: seq<byte>, p: seq<byte>, n: nat, c': Client)
    requires ClientValid(c, inputs, stream) && c.isSet && n <= |p| && IsNext(c, stream, p)
    requires c'.(status := Processing) == Sending(c, p[..n]).(status := Processing)
    ensures ClientValid(c', inputs, stream)
  {
    match c.mode
    case Buffer(data) => PrefixGrows(data, c.bytes, p, n);
    case Descriptor => PrefixGrows(stream, c.bytes, p, n);
  }

  lemma PrefixGrows(whole: seq<byte>, sent: nat, p: seq<byte>, n: nat)
    requires sent + |p| <= |whole| && p == whole[sent..sent + |p|] && n <= |p|
    ensures whole[..sent] + p[..n] == whole[..sent + n]
  {}

  // ---- What a call of XPAClientSet does --------------------------------------------------

  /** How many bytes a call sends: all that the peer takes, or what it takes of one send. */
  function SentBytes(s: State, c: nat, replies: seq<Sent>, level: int): (n: nat)
    requires c < |s.clients|
    ensures n <= |Pending(s, c)|
  {
    var p := Pending(s, c);
    if level <= 0 then Min(|p|, Offered(replies))
    else if FirstAccepted(replies) then First(|p|, replies)
    else 0
  }

  /** All that could be sent has been sent in this call. */
  predicate SendsAll(s: State, c: nat, replies: seq<Sent>, level: int)
    requires c < |s.clients|
  {
    Pending(s, c) != [] && level <= 0 && |Pending(s, c)| <= Offered(replies)
  }

  function Value(s: State, c: nat, replies: seq<Sent>, level: int): int
    requires c < |s.clients|
  {
    if Exhausted(s, c) then 1
    else if Pending(s, c) == [] then 0
    else if level > 0 && FirstAccepted(replies) then SentBytes(s, c, replies, level)
    else if SendsAll(s, c, replies, level) then (if s.clients[c].mode.Buffer? then 1 else 0)
    else if Fails(replies) then -1
    else 0
  }

  /** The client stops processing when nothing is left of its own buffer or of the whole input, or when
      a send has failed. */
  predicate Stops(s: State, c: nat, replies: seq<Sent>, level: int)
    requires c < |s.clients|
  {
    Exhausted(s, c) || Value(s, c, replies, level) == -1
    || (s.clients[c].mode.Buffer? && SendsAll(s, c, replies, level))
  }

  lemma ExhaustedNothing(s: State, c: nat)
    requires c < |s.clients| && Exhausted(s, c)
    ensures Pending(s, c) == []
  {}

  /** The client after a call that sends n bytes. */
  function SentOn(s: State, c: nat, n: nat, stops: bool): Client
    requires c < |s.clients| && n <= |Pending(s, c)|
  {
    var sent := Sending(s.clients[c], Pending(s, c)[..n]);
    if stops then sent.(status := Waiting) else sent
  }

  /** A call, exactly: the bytes sent, what becomes of the client, and the value returned. */
  lemma AnswerIs(s: State, c: nat, replies: seq<Sent>, level: int)
    requires c < |s.clients|
    ensures Answer(s, c, replies, level).0
         == SentOn(s, c, SentBytes(s, c, replies, level), Stops(s, c, replies, level))
    ensures Answer(s, c, replies, level).1 == Value(s, c, replies, level)
  {
    var client, p := s.clients[c], Pending(s, c);
    assert Sending(client, []) == client;
    if Exhausted(s, c) {
      ExhaustedNothing(s, c);
    } else if p != [] {
      if level <= 0 {
        TransmitsOffered(client, p, replies, level);
      } else {
        TransmitsOnce(client, p, replies, level);
      }
    }
  }

  /** A client is exhausted exactly if it has sent everything it ever will. */
  lemma ExhaustedIsComplete(s: State, stream: seq<byte>, c: nat)
    requires StateValid(s, stream) && c < |s.clients| && s.clients[c].isSet
    ensures Exhausted(s, c) <==> Complete(s.clients[c], stream, s.open)
  {
    var client := s.clients[c];
    if client.mode.Descriptor? {
      var k := Holder(s.inputs, client.bytes);
      if k == |s.inputs| {
        assert !InSome(client.bytes, s.inputs);
        assert client.bytes >= |stream|;
      } else {
        assert Holds(s.inputs[k], stream);
        assert |client.out| < |stream|;
      }
    }
  }

  /** Something is still to be sent after n more bytes. */
  predicate Remains(s: State, c: nat, n: nat)
    requires c < |s.clients|
  {
    match s.clients[c].mode
    case Buffer(data) => s.clients[c].bytes + n < |data|
    case Descriptor => s.open || s.clients[c].bytes + n < s.inpbytes
  }

  lemma RemainsIsIncomplete(s: State, stream: seq<byte>, c: nat, n: nat, stops: bool)
    requires StateValid(s, stream) && c < |s.clients| && s.clients[c].isSet && n <= |Pending(s, c)|
    ensures Remains(s, c, n) <==> !Complete(SentOn(s, c, n, stops), stream, s.open)
  {
    PendingIsNext(s, stream, c);
    ClientSends(s.clients[c], s.inputs, stream, Pending(s, c), n, SentOn(s, c, n, stops));
    CompleteByCount(SentOn(s, c, n, stops), stream, s.open);
  }

  lemma CompleteByCount(c: Client, stream: seq<byte>, open: bool)
    requires HasSent(c, stream) && c.isSet
    ensures Complete(c, stream, open) <==>
              match c.mode
              case Buffer(data) => c.bytes == |data|
              case Descriptor => !open && c.bytes == |stream|
  {
    match c.mode
    case Buffer(data) => assert data[..|data|] == data;
    case Descriptor => assert stream[..|stream|] == stream;
  }

  /** XPAClientProcessSelect takes a positive result for completion.  It is wrong exactly at an XPA
      level, if the first send is accepted and leaves something; with the value 1, if that was one byte. */
  lemma PositiveIncomplete(s: State, stream: seq<byte>, c: nat, replies: seq<Sent>, level: int)
    requires StateValid(s, stream) && c < |s.clients| && s.clients[c].isSet
    ensures var n := SentBytes(s, c, replies, level);
            Value(s, c, replies, level) > 0 && !Complete(Answer(s, c, replies, level).0, stream, s.open)
            <==> level > 0 && FirstAccepted(replies) && n > 0 && Remains(s, c, n)
    ensures var n := SentBytes(s, c, replies, level);
            Value(s, c, replies, level) == 1 && !Complete(Answer(s, c, replies, level).0, stream, s.open)
            <==> level > 0 && FirstAccepted(replies) && n == 1 && Remains(s, c, n)
  {
    var n, stops := SentBytes(s, c, replies, level), Stops(s, c, replies, level);
    AnswerIs(s, c, replies, level);
    RemainsIsIncomplete(s, stream, c, n, stops);
    ExhaustedIsComplete(s, stream, c);
    RemainsIsIncomplete(s, stream, c, 0, stops);
    if Exhausted(s, c) {
      ExhaustedNothing(s, c);
      assert n == 0 && !Remains(s, c, 0);
    }
  }

  /** A call that takes the client out of processing with anything but an error leaves it complete, and
      without an XPA level that is exactly when the call returns 1. */
  lemma StopsComplete(s: State, stream: seq<byte>, c: nat, replies: seq<Sent>, level: int)
    requires StateValid(s, stream) && c < |s.clients| && s.clients[c].isSet
    ensures Stops(s, c, replies, level) ==>
              (Value(s, c, replies, level) == 1 <==> Complete(Answer(s, c, replies, level).0, stream, s.open))
    ensures Stops(s, c, replies, level) ==> Value(s, c, replies, level) == 1 || Value(s, c, replies, level) == -1
    ensures level <= 0 ==>
              (Value(s, c, replies, level) > 0 <==> Stops(s, c, replies, level) && Value(s, c, replies, level) == 1)
  {
    var n, stops := SentBytes(s, c, replies, level), Stops(s, c, replies, level);
    AnswerIs(s, c, replies, level);
    RemainsIsIncomplete(s, stream, c, n, stops);
    ExhaustedIsComplete(s, stream, c);
    PendingIsNext(s, stream, c);
    if Exhausted(s, c) {
      ExhaustedNothing(s, c);
      RemainsIsIncomplete(s, stream, c, 0, stops);
    }
  }

  lemma SetKeeps(s: State, stream: seq<byte>, c: nat, replies: seq<Sent>, level: int)
    requires StateValid(s, stream) && c < |s.clients| && s.clients[c].isSet
    requires s.clients[c].status == Processing
    ensures StateValid(AfterSet(s, c, replies, level), stream)
  {
    var client := Answer(s, c, replies, level).0;
    var clients := s.clients[c := client];
    AnswerIs(s, c, replies, level);
    SendingKeeps(s, stream, c, SentBytes(s, c, replies, level), client);
    var k := Holder(s.inputs, s.clients[c].bytes);
    if k < |s.inputs| && Spent(s.inputs[k], clients, s.open) {
      WithoutValid(s.(clients := clients), k, stream);
    }
  }

  /** At an XPA level no buffer is ever freed. */
  lemma LevelKeepsBuffers(s: State, c: nat, replies: seq<Sent>, level: int)
    requires c < |s.clients| && level > 0
    ensures AfterSet(s, c, replies, level).inputs == s.inputs
  {
    if Pending(s, c) != [] {
      TransmitsOnce(s.clients[c], Pending(s, c), replies, level);
    }
  }
}
