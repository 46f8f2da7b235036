/** The retransmitting datagram transfer: one client session against one run of the server's
    serving loop, over a network that loses, duplicates and reorders datagrams. A datagram
    once sent may be delivered any number of times, at any later moment, or never. */
module UdprTransfer {

  const MAX_RETRANSMITS: nat := 5
  const CLIENT_CHUNK: nat := 1000
  const SERVER_MAX: nat := 64000
  const UINT64_SIZE: nat := 0x1_0000_0000_0000_0000

  type Bytes = seq<int>

  /** 64-bit subtraction of one. */
  function Pred(x: nat): nat { if x == 0 then UINT64_SIZE - 1 else x - 1 }

  datatype Packet =
    | Conn(session: nat, size: nat)
    | ConAcc(session: nat)
    | ConRjt(session: nat)
    | Data(session: nat, number: nat, payload: Bytes)
    | Acc(session: nat, number: nat)
    | Rjt(session: nat, number: nat)
    | Rcvd(session: nat)

  // ----- the message as a queue of chunks

  /** Full chunks, and a last one that may be shorter. */
  function Chunks(input: Bytes): (r: seq<Bytes>)
    ensures forall c :: c in r ==> 0 < |c| <= CLIENT_CHUNK
  {
    if input == [] then []
    else if |input| <= CLIENT_CHUNK then [input]
    else [input[..CLIENT_CHUNK]] + Chunks(input[CLIENT_CHUNK..])
  }

  function Total(cs: seq<Bytes>): nat {
    if cs == [] then 0 else Total(cs[..|cs| - 1]) + |cs[|cs| - 1]|
  }

  function Joined(cs: seq<Bytes>): Bytes {
    if cs == [] then [] else cs[0] + Joined(cs[1..])
  }

  /** How much a read of at most `room` bytes delivers: at least one byte before the end of
      the input, however the system splits it. */
  function ReadSize(wish: nat, room: nat, left: nat): nat {
    var most := if room < left then room else left;
    if wish == 0 then (if most == 0 then 0 else 1) else if wish < most then wish else most
  }

  lemma ReadSizeBounds(wish: nat, room: nat, left: nat)
    ensures ReadSize(wish, room, left) <= room && ReadSize(wish, room, left) <= left
    ensures room > 0 && left > 0 ==> ReadSize(wish, room, left) > 0
  {
  }

  /** A chunk that is full, or ends the input, is the first chunk of what was left. */
  lemma ChunkRead(input: Bytes, start: nat, end: nat)
    requires start < end <= |input| && end - start <= CLIENT_CHUNK
    requires end - start == CLIENT_CHUNK || end == |input|
    ensures Chunks(input[start..]) == [input[start..end]] + Chunks(input[end..])
  {
    assert input[start..][..end - start] == input[start..end] && input[start..][end - start..] == input[end..];
    if end == |input| { assert input[start..] == input[start..end] && input[end..] == []; }
  }

  lemma NothingRead(input: Bytes)
    ensures input[|input|..] == [] && Chunks([]) == []
  {
  }

  /** Reads standard input to its end into a queue of chunks; `wishes` says how the system
      splits the k-th read. The queue does not depend on it. */
  method ReadFromStdin(input: Bytes, wishes: nat -> nat) returns (queue: seq<Bytes>, size: nat)
    ensures queue == Chunks(input) && size == |input|
  {
    hide Chunks, ReadSize;
    queue, size := [], 0;
    var consumed, calls := 0, 0;
    assert input[0..] == input;
    while true
      invariant consumed == size <= |input| && queue + Chunks(input[consumed..]) == Chunks(input)
      decreases |input| - consumed
    {
      var start := consumed;
      var offset := 0;
      while true
        invariant start + offset == consumed <= |input| && offset < CLIENT_CHUNK
        decreases CLIENT_CHUNK - offset
      {
        ReadSizeBounds(wishes(calls), CLIENT_CHUNK - offset, |input| - consumed);
        var n := ReadSize(wishes(calls), CLIENT_CHUNK - offset, |input| - consumed);
        calls := calls + 1;
        offset, consumed := offset + n, consumed + n;
        if offset == CLIENT_CHUNK || n == 0 {
          assert n == 0 ==> consumed == |input|;
          break;
        }
      }
      if offset == 0 {
        NothingRead(input);
        break;
      }
      var node := input[start..consumed];
      ChunkRead(input, start, consumed);
      queue, size := queue + [node], size + offset;
    }
  }

  lemma {:induction false} ChunksJoin(input: Bytes)
    ensures Joined(Chunks(input)) == input
  {
    if |input| > CLIENT_CHUNK {
      ChunksJoin(input[CLIENT_CHUNK..]);
      assert Chunks(input)[1..] == Chunks(input[CLIENT_CHUNK..]);
    } else if input != [] {
      assert Chunks(input)[1..] == [];
    }
  }

  lemma {:induction false} TotalConcat(a: seq<Bytes>, b: seq<Bytes>)
    ensures Total(a + b) == Total(a) + Total(b)
  {
    if b == [] {
      assert a + b == a;
    } else {
      assert (a + b)[..|a + b| - 1] == a + b[..|b| - 1];
      TotalConcat(a, b[..|b| - 1]);
    }
  }

  lemma {:induction false} ChunksTotal(input: Bytes)
    ensures Total(Chunks(input)) == |input|
  {
    if |input| > CLIENT_CHUNK {
      ChunksTotal(input[CLIENT_CHUNK..]);
      TotalConcat([input[..CLIENT_CHUNK]], Chunks(input[CLIENT_CHUNK..]));
      assert Total([input[..CLIENT_CHUNK]]) == CLIENT_CHUNK;
    } else if input != [] {
      assert Total([input]) == |input|;
    }
  }

  /** Fewer chunks hold fewer bytes: the byte count reaches the total with the last chunk only. */
  lemma {:induction false} TotalGrows(cs: seq<Bytes>, i: nat)
    requires i <= |cs| && forall c :: c in cs ==> 0 < |c|
    ensures Total(cs[..i]) <= Total(cs) && (Total(cs[..i]) == Total(cs) <==> i == |cs|)
    decreases |cs|
  {
    if i < |cs| {
      assert cs[|cs| - 1] in cs;
      assert cs[..|cs| - 1][..i] == cs[..i];
      TotalGrows(cs[..|cs| - 1], i);
    } else {
      assert cs[..i] == cs;
    }
  }

  // ----- what the two programs do with a received datagram

  datatype Failure = Retransmits | WrongType | WrongSession | WrongNumber | Rejected | Refused | Timeout

  /** A received datagram, or nothing within the waiting time. */
  datatype Input = Nothing | Got(packet: Packet)

  /** The client's reaction to what it calls while it waits for an acknowledgement. */
  datatype AccResult = Success | Continue(resend: bool) | Fail(why: Failure)

  function ReceiveAcc(session: nat, number: nat, i: Input): AccResult {
    match i
    case Nothing => Continue(true)
    case Got(ConAcc(s)) => if s != session then Fail(WrongSession) else Continue(false)
    case Got(Acc(s, n)) =>
      if s != session then Fail(WrongSession)
      else if n == Pred(number) then Continue(true)
      else if n < number then Continue(false)
      else if n == number then Success
      else Fail(WrongNumber)
    case Got(Rjt(s, n)) => if s != session then Fail(WrongSession) else Fail(Rejected)
    case _ => Fail(WrongType)
  }

  /** The server's reaction to a datagram: the client's own or a stranger's. */
  datatype DataResult = Accept | Ignore | Retry | RejectStranger | Stop

  function ReceiveData(session: nat, expected: nat, i: Input): DataResult {
    match i
    case Nothing => Retry
    case Got(Conn(s, size)) => if expected == 0 && s == session then Retry else Ignore
    case Got(Data(s, n, payload)) =>
      if s != session || n > expected || |payload| > SERVER_MAX then
        (if s != session then RejectStranger else Stop)
      else if n == Pred(expected) then Retry
      else if n < expected then Ignore
      else Accept
    case _ => Stop
  }

  // ----- the two loops

  /** `reading` is false at the head of the retransmission loop, true when the datagram of
      this round, if any, has been sent. */
  datatype Client =
    | Connecting(tries: nat, reading: bool)
    | Sending(number: nat, tries: nat, send: bool, reading: bool)
    | Finishing
    | Finished
    | Failed(why: Failure)

  datatype Server =
    | Idle
    | Serving(expected: nat, accepted: seq<Bytes>, tries: nat, respond: bool, reading: bool)
    | Served(accepted: seq<Bytes>)
    | GaveUp(accepted: seq<Bytes>, rejected: bool)

  datatype State = State(client: Client, server: Server, toServer: set<Packet>, toClient: set<Packet>)

  datatype Session = Session(id: nat, message: Bytes)

  function Queue(m: Session): seq<Bytes> { Chunks(m.message) }

  const INITIAL := State(Connecting(0, false), Idle, {}, {})

  datatype Event =
    | ClientRound
    | ClientReads(i: Input)
    | ServerStarts(p: Packet)
    | ServerRound
    | ServerReads(i: Input)

  /** Datagrams of other clients of the server. */
  predicate Stranger(m: Session, p: Packet) {
    p.Conn? || (p.Data? && p.session != m.id)
  }

  ghost predicate Enabled(m: Session, s: State, e: Event) {
    match e
    case ClientRound => (s.client.Connecting? || s.client.Sending?) && !s.client.reading
    case ClientReads(i) =>
      && (s.client.Finishing? || ((s.client.Connecting? || s.client.Sending?) && s.client.reading))
      && (i.Got? ==> i.packet in s.toClient)
    case ServerStarts(p) => s.server.Idle? && p in s.toServer && p.Conn? && p.session == m.id
    case ServerRound => s.server.Serving? && !s.server.reading
    case ServerReads(i) =>
      && s.server.Serving? && s.server.reading
      && (i.Got? ==> i.packet in s.toServer || Stranger(m, i.packet))
  }

  /** The client's first round on the given chunk, or its wait for the end after the last one. */
  function NextChunk(m: Session, number: nat): Client {
    if number < |Queue(m)| then Sending(number, 0, true, false) else Finishing
  }

  /** One pass of the client's loop up to its read, with what it sends. */
  function ClientHead(m: Session, c: Client): (Client, seq<Packet>)
    requires (c.Connecting? || c.Sending?) && !c.reading
  {
    if c.tries > MAX_RETRANSMITS then (Failed(Retransmits), [])
    else match c
      case Connecting(tries, _) => (Connecting(tries, true), [Conn(m.id, |m.message|)])
      case Sending(number, tries, send, _) =>
        (Sending(number, tries, false, true),
         if send && number < |Queue(m)| then [Data(m.id, number, Queue(m)[number])] else [])
  }

  function ClientIn(m: Session, c: Client, i: Input): Client
    requires c.Finishing? || ((c.Connecting? || c.Sending?) && c.reading)
  {
    match c
    case Connecting(tries, _) =>
      (match i
       case Nothing => Connecting(tries + 1, false)
       case Got(ConAcc(id)) => if id == m.id then NextChunk(m, 0) else Failed(WrongSession)
       case Got(ConRjt(id)) => if id == m.id then Failed(Refused) else Failed(WrongSession)
       case Got(_) => Failed(WrongType))
    case Sending(number, tries, _, _) =>
      (match ReceiveAcc(m.id, number, i)
       case Success => NextChunk(m, number + 1)
       case Continue(resend) => Sending(number, if resend then tries + 1 else tries, resend, false)
       case Fail(why) => Failed(why))
    case Finishing =>
      match i
      case Nothing => Failed(Timeout)
      case Got(Acc(id, n)) =>
        if id != m.id then Failed(WrongSession) else if n > |Queue(m)| then Failed(WrongNumber) else Finishing
      case Got(ConAcc(id)) => Finishing
      case Got(Rcvd(id)) => Finished
      case Got(_) => Failed(WrongType)
  }

  /** The outer loop's test: go on with the next packet, or send the last acknowledgement and
      the confirmation. */
  function NextExpected(m: Session, expected: nat, accepted: seq<Bytes>): (Server, seq<Packet>) {
    if Total(accepted) < |m.message| then (Serving(expected, accepted, 0, true, false), [])
    else (Served(accepted), [Acc(m.id, Pred(expected)), Rcvd(m.id)])
  }

  function ServerHead(m: Session, v: Server): (Server, seq<Packet>)
    requires v.Serving? && !v.reading
  {
    if v.tries > MAX_RETRANSMITS then (GaveUp(v.accepted, false), [])
    else
      (v.(respond := false, reading := true),
       if !v.respond then [] else [if v.expected == 0 then ConAcc(m.id) else Acc(m.id, Pred(v.expected))])
  }

  function ServerIn(m: Session, v: Server, i: Input): (Server, seq<Packet>)
    requires v.Serving? && v.reading
  {
    match ReceiveData(m.id, v.expected, i)
    case Accept => NextExpected(m, v.expected + 1, v.accepted + [i.packet.payload])
    case Retry => (v.(tries := v.tries + 1, respond := true, reading := false), [])
    case Ignore => (v.(reading := false), [])
    case RejectStranger => (v.(reading := false), [])
    case Stop => (GaveUp(v.accepted, true), [])
  }

  function Sent(ps: seq<Packet>): set<Packet> { set p | p in ps }

  function ClientDoes(s: State, r: (Client, seq<Packet>)): State {
    s.(client := r.0, toServer := s.toServer + Sent(r.1))
  }

  function ServerDoes(s: State, r: (Server, seq<Packet>)): State {
    s.(server := r.0, toClient := s.toClient + Sent(r.1))
  }

  function Step(m: Session, s: State, e: Event): State
    requires Enabled(m, s, e)
  {
    match e
    case ClientRound => ClientDoes(s, ClientHead(m, s.client))
    case ClientReads(i) => ClientDoes(s, (ClientIn(m, s.client, i), []))
    case ServerStarts(p) => ServerDoes(s, NextExpected(m, 0, []))
    case ServerRound => ServerDoes(s, ServerHead(m, s.server))
    case ServerReads(i) => ServerDoes(s, ServerIn(m, s.server, i))
  }

  // ----- the loops of the two programs, on a given sequence of inputs

  /** Runs the server alone until it ends or the inputs do. */
  function ServerRun(m: Session, v: Server, inputs: seq<Input>): (Server, seq<Packet>)
    decreases |inputs|, if v.Serving? && !v.reading then 1 else 0
  {
    if !v.Serving? then (v, [])
    else if !v.reading then
      var (v1, sent1) := ServerHead(m, v);
      var (v2, sent2) := ServerRun(m, v1, inputs);
      (v2, sent1 + sent2)
    else if inputs == [] then (v, [])
    else
      var (v1, sent1) := ServerIn(m, v, inputs[0]);
      var (v2, sent2) := ServerRun(m, v1, inputs[1..]);
      (v2, sent1 + sent2)
  }

  function ServerFromStart(m: Session, inputs: seq<Input>): (Server, seq<Packet>) {
    var (v1, sent1) := NextExpected(m, 0, []);
    var (v2, sent2) := ServerRun(m, v1, inputs);
    (v2, sent1 + sent2)
  }

  /** With `sent` already sent, going on from v on these inputs gives the result of the whole. */
  ghost predicate ServerGoesOn(m: Session, whole: (Server, seq<Packet>), v: Server, sent: seq<Packet>, inputs: seq<Input>) {
    var (v2, sent2) := ServerRun(m, v, inputs);
    whole == (v2, sent + sent2)
  }

  lemma ServerBegins(m: Session, inputs: seq<Input>)
    ensures var (v1, sent1) := NextExpected(m, 0, []);
      ServerGoesOn(m, ServerFromStart(m, inputs), v1, sent1, inputs)
  {
  }

  lemma ServerHeadStep(m: Session, whole: (Server, seq<Packet>), v: Server, sent: seq<Packet>, inputs: seq<Input>)
    requires v.Serving? && !v.reading && ServerGoesOn(m, whole, v, sent, inputs)
    ensures var (v1, sent1) := ServerHead(m, v); ServerGoesOn(m, whole, v1, sent + sent1, inputs)
  {
    var (v1, sent1) := ServerHead(m, v);
    var (v2, sent2) := ServerRun(m, v1, inputs);
    assert sent + (sent1 + sent2) == (sent + sent1) + sent2;
  }

  lemma ServerInStep(m: Session, whole: (Server, seq<Packet>), v: Server, sent: seq<Packet>, inputs: seq<Input>)
    requires v.Serving? && v.reading && inputs != [] && ServerGoesOn(m, whole, v, sent, inputs)
    ensures var (v1, sent1) := ServerIn(m, v, inputs[0]); ServerGoesOn(m, whole, v1, sent + sent1, inputs[1..])
  {
    var (v1, sent1) := ServerIn(m, v, inputs[0]);
    var (v2, sent2) := ServerRun(m, v1, inputs[1..]);
    assert sent + (sent1 + sent2) == (sent + sent1) + sent2;
  }

  lemma ServerStops(m: Session, whole: (Server, seq<Packet>), v: Server, sent: seq<Packet>, inputs: seq<Input>)
    requires ServerGoesOn(m, whole, v, sent, inputs) && (!v.Serving? || (v.reading && inputs == []))
    ensures whole == (v, sent)
  {
    assert sent + [] == sent;
  }

  /** What the serving state becomes with one more accepted payload, after `sent`. */
  ghost predicate ServerGoesOnNext(m: Session, whole: (Server, seq<Packet>), expected: nat, accepted: seq<Bytes>,
                                   sent: seq<Packet>, inputs: seq<Input>) {
    var (v1, sent1) := NextExpected(m, expected, accepted);
    ServerGoesOn(m, whole, v1, sent + sent1, inputs)
  }

  /** The inner loop: answers, retries and ignores until the expected packet arrives (`got`). */
  method ReceiveNext(m: Session, inputs: seq<Input>, ghost whole: (Server, seq<Packet>), expected: nat,
                     accepted: seq<Bytes>, sent0: seq<Packet>, k0: nat)
    returns (got: bool, payload: Bytes, v: Server, sent: seq<Packet>, k: nat)
    requires k0 <= |inputs| && ServerGoesOn(m, whole, Serving(expected, accepted, 0, true, false), sent0, inputs[k0..])
    ensures k0 <= k <= |inputs|
    ensures got ==> k0 < k && ServerGoesOnNext(m, whole, expected + 1, accepted + [payload], sent, inputs[k..])
    ensures !got ==> (v, sent) == whole
  {
    hide ServerRun, ServerGoesOn, NextExpected;
    sent, k, got, payload := sent0, k0, false, [];
    var tries, respond := 0, true;
    while tries <= MAX_RETRANSMITS
      invariant k0 <= k <= |inputs|
      invariant ServerGoesOn(m, whole, Serving(expected, accepted, tries, respond, false), sent, inputs[k..])
      decreases |inputs| - k
    {
      ServerHeadStep(m, whole, Serving(expected, accepted, tries, respond, false), sent, inputs[k..]);
      assert sent + [] == sent;
      if respond {
        sent := sent + [if expected == 0 then ConAcc(m.id) else Acc(m.id, Pred(expected))];
      }
      respond := false;
      v := Serving(expected, accepted, tries, false, true);
      if k == |inputs| {
        ServerStops(m, whole, v, sent, inputs[k..]);
        return;
      }
      var i := inputs[k];
      ServerInStep(m, whole, v, sent, inputs[k..]);
      assert inputs[k..][1..] == inputs[k + 1..] && sent + [] == sent;
      k := k + 1;
      if i.Nothing? {
        tries, respond := tries + 1, true;
      } else if i.packet.Conn? {
        if expected == 0 && i.packet.session == m.id { tries, respond := tries + 1, true; }
      } else if !i.packet.Data? {
        v := GaveUp(accepted, true);
        ServerStops(m, whole, v, sent, inputs[k..]);
        return;
      } else if i.packet.session != m.id || i.packet.number > expected || |i.packet.payload| > SERVER_MAX {
        if i.packet.session == m.id {
          v := GaveUp(accepted, true);
          ServerStops(m, whole, v, sent, inputs[k..]);
          return;
        }
      } else if i.packet.number == Pred(expected) {
        tries, respond := tries + 1, true;
      } else if i.packet.number >= expected {
        got, payload := true, i.packet.payload;
        return;
      }
    }
    v := GaveUp(accepted, false);
    ServerHeadStep(m, whole, Serving(expected, accepted, tries, respond, false), sent, inputs[k..]);
    assert sent + [] == sent;
    ServerStops(m, whole, v, sent, inputs[k..]);
  }

  /** The serving loop, for one announced session. */
  method ServeClient(m: Session, inputs: seq<Input>) returns (v: Server, sent: seq<Packet>)
    ensures (v, sent) == ServerFromStart(m, inputs)
  {
    hide ServerRun, ServerGoesOn, ServerFromStart;
    ghost var whole := ServerFromStart(m, inputs);
    sent := [];
    var accepted: seq<Bytes> := [];
    var dataReceived, expected, k := 0, 0, 0;
    ServerBegins(m, inputs);
    assert inputs[0..] == inputs && sent + NextExpected(m, 0, []).1 == NextExpected(m, 0, []).1;
    while dataReceived < |m.message|
      invariant k <= |inputs| && dataReceived == Total(accepted)
      invariant ServerGoesOnNext(m, whole, expected, accepted, sent, inputs[k..])
      decreases |inputs| - k
    {
      assert sent + [] == sent;
      var got, payload;
      got, payload, v, sent, k := ReceiveNext(m, inputs, whole, expected, accepted, sent, k);
      if !got { return; }
      TotalConcat(accepted, [payload]);
      assert Total([payload]) == |payload|;
      dataReceived := dataReceived + |payload|;
      accepted := accepted + [payload];
      expected := expected + 1;
    }
    v, sent := Served(accepted), sent + [Acc(m.id, Pred(expected)), Rcvd(m.id)];
    ServerStops(m, whole, v, sent, inputs[k..]);
  }

  /** Runs the client alone until it ends or the inputs do. */
  function ClientRun(m: Session, c: Client, inputs: seq<Input>): (Client, seq<Packet>)
    decreases |inputs|, if (c.Connecting? || c.Sending?) && !c.reading then 1 else 0
  {
    if (c.Connecting? || c.Sending?) && !c.reading then
      var (c1, sent1) := ClientHead(m, c);
      var (c2, sent2) := ClientRun(m, c1, inputs);
      (c2, sent1 + sent2)
    else if inputs == [] || c.Finished? || c.Failed? then (c, [])
    else ClientRun(m, ClientIn(m, c, inputs[0]), inputs[1..])
  }

  function ClientFromStart(m: Session, inputs: seq<Input>): (Client, seq<Packet>) {
    ClientRun(m, Connecting(0, false), inputs)
  }

  ghost predicate ClientGoesOn(m: Session, whole: (Client, seq<Packet>), c: Client, sent: seq<Packet>, inputs: seq<Input>) {
    var (c2, sent2) := ClientRun(m, c, inputs);
    whole == (c2, sent + sent2)
  }

  lemma ClientBegins(m: Session, inputs: seq<Input>)
    ensures ClientGoesOn(m, ClientFromStart(m, inputs), Connecting(0, false), [], inputs)
  {
    var (c2, sent2) := ClientRun(m, Connecting(0, false), inputs);
    assert [] + sent2 == sent2;
  }

  lemma ClientHeadStep(m: Session, whole: (Client, seq<Packet>), c: Client, sent: seq<Packet>, inputs: seq<Input>)
    requires (c.Connecting? || c.Sending?) && !c.reading && ClientGoesOn(m, whole, c, sent, inputs)
    ensures var (c1, sent1) := ClientHead(m, c); ClientGoesOn(m, whole, c1, sent + sent1, inputs)
  {
    var (c1, sent1) := ClientHead(m, c);
    var (c2, sent2) := ClientRun(m, c1, inputs);
    assert sent + (sent1 + sent2) == (sent + sent1) + sent2;
  }

  lemma ClientInStep(m: Session, whole: (Client, seq<Packet>), c: Client, sent: seq<Packet>, inputs: seq<Input>)
    requires c.Finishing? || ((c.Connecting? || c.Sending?) && c.reading)
    requires inputs != [] && ClientGoesOn(m, whole, c, sent, inputs)
    ensures ClientGoesOn(m, whole, ClientIn(m, c, inputs[0]), sent, inputs[1..])
  {
  }

  lemma ClientStops(m: Session, whole: (Client, seq<Packet>), c: Client, sent: seq<Packet>, inputs: seq<Input>)
    requires ClientGoesOn(m, whole, c, sent, inputs)
    requires c.Finished? || c.Failed? || (inputs == [] && (c.Finishing? || c.reading))
    ensures whole == (c, sent)
  {
    assert sent + [] == sent;
  }

  /** The client's connection loop; `connected` tells that the server accepted. */
  method Connect(m: Session, inputs: seq<Input>) returns (connected: bool, c: Client, sent: seq<Packet>, k: nat)
    ensures k <= |inputs|
    ensures connected ==> ClientGoesOn(m, ClientFromStart(m, inputs), NextChunk(m, 0), sent, inputs[k..])
    ensures !connected ==> (c, sent) == ClientFromStart(m, inputs)
  {
    hide ClientRun, ClientGoesOn, ClientFromStart, Queue;
    ghost var whole := ClientFromStart(m, inputs);
    sent, k, connected := [], 0, false;
    var tries := 0;
    ClientBegins(m, inputs);
    assert inputs[0..] == inputs;
    while tries <= MAX_RETRANSMITS
      invariant k <= |inputs| && ClientGoesOn(m, whole, Connecting(tries, false), sent, inputs[k..])
      decreases |inputs| - k
    {
      ClientHeadStep(m, whole, Connecting(tries, false), sent, inputs[k..]);
      sent := sent + [Conn(m.id, |m.message|)];
      c := Connecting(tries, true);
      if k == |inputs| {
        ClientStops(m, whole, c, sent, inputs[k..]);
        return;
      }
      var i := inputs[k];
      ClientInStep(m, whole, c, sent, inputs[k..]);
      assert inputs[k..][1..] == inputs[k + 1..];
      k := k + 1;
      if i.Got? && i.packet.ConAcc? && i.packet.session == m.id {
        connected := true;
        return;
      }
      if i.Nothing? {
        tries := tries + 1;
      } else {
        c := Failed(if i.packet.ConRjt? && i.packet.session == m.id then Refused
                    else if i.packet.ConRjt? || i.packet.ConAcc? then WrongSession else WrongType);
        ClientStops(m, whole, c, sent, inputs[k..]);
        return;
      }
    }
    c := Failed(Retransmits);
    ClientHeadStep(m, whole, Connecting(tries, false), sent, inputs[k..]);
    assert sent + [] == sent;
    ClientStops(m, whole, c, sent, inputs[k..]);
  }

  /** The client's loop for one chunk; `acknowledged` tells that it was acknowledged. */
  method SendChunk(m: Session, inputs: seq<Input>, ghost whole: (Client, seq<Packet>), number: nat, sent0: seq<Packet>, k0: nat)
    returns (acknowledged: bool, c: Client, sent: seq<Packet>, k: nat)
    requires number < |Queue(m)| && k0 <= |inputs|
    requires ClientGoesOn(m, whole, Sending(number, 0, true, false), sent0, inputs[k0..])
    ensures k0 <= k <= |inputs|
    ensures acknowledged ==> ClientGoesOn(m, whole, NextChunk(m, number + 1), sent, inputs[k..])
    ensures !acknowledged ==> (c, sent) == whole
  {
    hide ClientRun, ClientGoesOn, Queue;
    sent, k, acknowledged := sent0, k0, false;
    var tries, send := 0, true;
    while tries <= MAX_RETRANSMITS
      invariant k0 <= k <= |inputs|
      invariant ClientGoesOn(m, whole, Sending(number, tries, send, false), sent, inputs[k..])
      decreases |inputs| - k
    {
      ClientHeadStep(m, whole, Sending(number, tries, send, false), sent, inputs[k..]);
      assert sent + [] == sent;
      if send { sent := sent + [Data(m.id, number, Queue(m)[number])]; }
      c := Sending(number, tries, false, true);
      if k == |inputs| {
        ClientStops(m, whole, c, sent, inputs[k..]);
        return;
      }
      var result := ReceiveAcc(m.id, number, inputs[k]);
      ClientInStep(m, whole, c, sent, inputs[k..]);
      assert inputs[k..][1..] == inputs[k + 1..];
      k := k + 1;
      match result {
        case Success =>
          acknowledged := true;
          return;
        case Continue(resend) =>
          send := resend;
          if resend { tries := tries + 1; }
        case Fail(why) =>
          c := Failed(why);
          ClientStops(m, whole, c, sent, inputs[k..]);
          return;
      }
    }
    c := Failed(Retransmits);
    ClientHeadStep(m, whole, Sending(number, tries, send, false), sent, inputs[k..]);
    assert sent + [] == sent;
    ClientStops(m, whole, c, sent, inputs[k..]);
  }

  /** The client: connects, sends one chunk after the other until each is acknowledged, and
      waits for the confirmation. */
  method UdprClient(m: Session, inputs: seq<Input>) returns (c: Client, sent: seq<Packet>)
    ensures (c, sent) == ClientFromStart(m, inputs)
  {
    hide ClientRun, ClientGoesOn, ClientFromStart, Queue;
    ghost var whole := ClientFromStart(m, inputs);
    var going: bool;
    var k: nat;
    going, c, sent, k := Connect(m, inputs);
    var number := 0;
    while going && number < |Queue(m)|
      invariant k <= |inputs| && number <= |Queue(m)|
      invariant going ==> ClientGoesOn(m, whole, NextChunk(m, number), sent, inputs[k..])
      invariant !going ==> (c, sent) == whole
    {
      going, c, sent, k := SendChunk(m, inputs, whole, number, sent, k);
      number := number + 1;
    }
    if !going { return; }
    while k < |inputs|
      invariant k <= |inputs| && ClientGoesOn(m, whole, Finishing, sent, inputs[k..])
    {
      var i := inputs[k];
      ClientInStep(m, whole, Finishing, sent, inputs[k..]);
      assert inputs[k..][1..] == inputs[k + 1..];
      k := k + 1;
      if i.Nothing? {
        c := Failed(Timeout);
      } else if i.packet.Acc? {
        c := if i.packet.session != m.id then Failed(WrongSession)
             else if i.packet.number > number then Failed(WrongNumber) else Finishing;
      } else {
        c := if i.packet.ConAcc? then Finishing else if i.packet.Rcvd? then Finished else Failed(WrongType);
      }
      if !c.Finishing? {
        ClientStops(m, whole, c, sent, inputs[k..]);
        return;
      }
    }
    c := Finishing;
    ClientStops(m, whole, c, sent, inputs[k..]);
  }

  // ----- the invariant, for a message that is not empty

  function Expected(s: State): nat {
    match s.server
    case Idle => 0
    case Serving(expected, _, _, _, _) => expected
    case Served(accepted) => |accepted|
    case GaveUp(accepted, _) => |accepted|
  }

  function Accepted(s: State): seq<Bytes> {
    if s.server.Idle? then [] else s.server.accepted
  }

  /** How many chunks the client has begun to send. */
  function Begun(m: Session, c: Client): nat {
    match c
    case Connecting(_, _) => 0
    case Sending(number, _, _, _) => number + 1
    case _ => |Queue(m)|
  }

  ghost predicate ServerPacketOk(m: Session, s: State, p: Packet) {
    || p == ConAcc(m.id)
    || (p.Acc? && p.session == m.id && p.number < Expected(s))
    || (p == Rcvd(m.id) && s.server.Served?)
  }

  ghost predicate ClientPacketOk(m: Session, s: State, p: Packet) {
    || p == Conn(m.id, |m.message|)
    || (p.Data? && p.session == m.id && p.number < |Queue(m)| && p.payload == Queue(m)[p.number]
        && p.number < Begun(m, s.client) && p.number <= Expected(s))
  }

  ghost predicate Inv(m: Session, s: State) {
    && Expected(s) <= |Queue(m)| && Accepted(s) == Queue(m)[..Expected(s)]
    && (s.server.Serving? ==> Expected(s) < |Queue(m)|)
    && (s.server.Served? ==> Expected(s) == |Queue(m)|)
    && (s.server.GaveUp? ==> !s.server.rejected)
    && (forall p :: p in s.toClient ==> ServerPacketOk(m, s, p))
    && (forall p :: p in s.toServer ==> ClientPacketOk(m, s, p))
    && (s.client.Sending? ==> s.client.number < |Queue(m)| && s.client.number <= Expected(s) <= s.client.number + 1)
    && (s.client.Connecting? ==> Expected(s) == 0)
    && (s.client.Finishing? || s.client.Finished? ==> Expected(s) == |Queue(m)|)
    && (s.client.Failed? ==> s.client.why in {Retransmits, Timeout} || (s.client.why == WrongType && s.server.Served?))
  }

  ghost predicate SessionValid(m: Session) { m.message != [] && |m.message| < UINT64_SIZE }

  lemma ChunksFacts(m: Session)
    requires SessionValid(m)
    ensures 0 < |Queue(m)| < UINT64_SIZE && Total(Queue(m)) == |m.message|
    ensures forall i :: 0 <= i <= |Queue(m)| ==> (Total(Queue(m)[..i]) < |m.message| <==> i < |Queue(m)|)
    ensures forall i :: 0 <= i < |Queue(m)| ==> |Queue(m)[i]| <= SERVER_MAX
  {
    ChunksTotal(m.message);
    ChunksCount(Queue(m));
    forall i | 0 <= i <= |Queue(m)| ensures Total(Queue(m)[..i]) < |m.message| <==> i < |Queue(m)| {
      TotalGrows(Queue(m), i);
    }
    forall i | 0 <= i < |Queue(m)| ensures |Queue(m)[i]| <= SERVER_MAX { assert Queue(m)[i] in Queue(m); }
  }

  lemma {:induction false} ChunksCount(cs: seq<Bytes>)
    requires forall c :: c in cs ==> 0 < |c|
    ensures |cs| <= Total(cs)
  {
    if cs != [] {
      assert cs[|cs| - 1] in cs;
      ChunksCount(cs[..|cs| - 1]);
    }
  }

  lemma ClientReadsKeeps(m: Session, s: State, i: Input)
    requires SessionValid(m) && Inv(m, s) && Enabled(m, s, ClientReads(i))
    ensures Inv(m, Step(m, s, ClientReads(i)))
  {
    hide Queue;
    ChunksFacts(m);
    if i.Got? { assert ServerPacketOk(m, s, i.packet); }
  }

  lemma ServerReadsKeeps(m: Session, s: State, i: Input)
    requires SessionValid(m) && Inv(m, s) && Enabled(m, s, ServerReads(i))
    ensures Inv(m, Step(m, s, ServerReads(i)))
  {
    hide Queue, Total;
    ChunksFacts(m);
    if i.Got? && i.packet in s.toServer { assert ClientPacketOk(m, s, i.packet); }
    var s' := Step(m, s, ServerReads(i));
    if ReceiveData(m.id, s.server.expected, i) == Accept {
      assert i.packet in s.toServer;
      assert Accepted(s) + [i.packet.payload] == Queue(m)[..Expected(s) + 1];
    }
    forall p | p in s'.toClient ensures ServerPacketOk(m, s', p) {
      if p in s.toClient { assert ServerPacketOk(m, s, p); }
    }
  }

  lemma StepKeeps(m: Session, s: State, e: Event)
    requires SessionValid(m) && Inv(m, s) && Enabled(m, s, e)
    ensures Inv(m, Step(m, s, e))
  {
    hide Queue, Total;
    ChunksFacts(m);
    match e
    case ClientRound =>
    case ClientReads(i) => ClientReadsKeeps(m, s, i);
    case ServerStarts(p) =>
    case ServerRound =>
    case ServerReads(i) => ServerReadsKeeps(m, s, i);
  }

  // ----- runs

  ghost predicate Run(m: Session, states: seq<State>, events: seq<Event>) {
    && |states| == |events| + 1 && states[0] == INITIAL
    && forall i :: 0 <= i < |events| ==> Enabled(m, states[i], events[i]) && states[i + 1] == Step(m, states[i], events[i])
  }

  lemma {:induction false} RunInv(m: Session, states: seq<State>, events: seq<Event>, n: nat)
    requires SessionValid(m) && Run(m, states, events) && n < |states|
    ensures Inv(m, states[n])
  {
    if n == 0 {
      ChunksFacts(m);
    } else {
      RunInv(m, states, events, n - 1);
      StepKeeps(m, states[n - 1], events[n - 1]);
    }
  }

  /** The first n chunks of the message. */
  function FirstChunks(m: Session, n: nat): seq<Bytes> {
    if n <= |Queue(m)| then Queue(m)[..n] else Queue(m)
  }

  /** In every run: the server has accepted exactly the first chunks of the message, it never
      rejects the session, and it is at most one chunk ahead of the client, never behind. */
  lemma ServerAcceptsPrefix(m: Session, states: seq<State>, events: seq<Event>, n: nat)
    requires SessionValid(m) && Run(m, states, events) && n < |states|
    ensures var s := states[n];
      && Accepted(s) == FirstChunks(m, Expected(s)) && |Accepted(s)| == Expected(s)
      && (s.client.Sending? ==> s.client.number <= Expected(s) <= s.client.number + 1)
      && (s.server.GaveUp? ==> !s.server.rejected)
      && (s.server.Served? ==> Accepted(s) == Queue(m))
  {
    RunInv(m, states, events, n);
  }

  /** The accepted bytes are a prefix of the message, all of it once the server is done. */
  lemma AcceptedBytes(m: Session, states: seq<State>, events: seq<Event>, n: nat)
    requires SessionValid(m) && Run(m, states, events) && n < |states|
    ensures Joined(Accepted(states[n])) <= m.message
    ensures states[n].server.Served? ==> Joined(Accepted(states[n])) == m.message
  {
    RunInv(m, states, events, n);
    ChunksJoin(m.message);
    JoinedPrefix(Queue(m), Expected(states[n]));
    assert Queue(m)[..|Queue(m)|] == Queue(m);
  }

  lemma {:induction false} JoinedPrefix(cs: seq<Bytes>, n: nat)
    requires n <= |cs|
    ensures Joined(cs[..n]) <= Joined(cs)
  {
    if n > 0 {
      JoinedPrefix(cs[1..], n - 1);
      assert cs[..n][1..] == cs[1..][..n - 1];
    }
  }

  /** No datagram of the server acknowledges more than the chunk the client is sending. */
  lemma NoAcknowledgementAhead(m: Session, states: seq<State>, events: seq<Event>, n: nat, p: Packet)
    requires SessionValid(m) && Run(m, states, events) && n < |states|
    requires p in states[n].toClient && p.Acc?
    ensures p.number < |Queue(m)|
    ensures states[n].client.Sending? ==> p.number <= states[n].client.number
  {
    RunInv(m, states, events, n);
    assert ServerPacketOk(m, states[n], p);
  }

  /** A client past its loop of chunks: the server has accepted the whole message. */
  lemma ClientDoneServerDone(m: Session, states: seq<State>, events: seq<Event>, n: nat)
    requires SessionValid(m) && Run(m, states, events) && n < |states|
    requires states[n].client.Finishing? || states[n].client.Finished?
    ensures Joined(Accepted(states[n])) == m.message
  {
    RunInv(m, states, events, n);
    ChunksJoin(m.message);
    assert Queue(m)[..|Queue(m)|] == Queue(m);
  }

  /** The client gives up only on a timeout, or because the confirmation overtook the last
      acknowledgement; in that case too the server has everything. */
  lemma WhyClientFails(m: Session, states: seq<State>, events: seq<Event>, n: nat)
    requires SessionValid(m) && Run(m, states, events) && n < |states|
    requires states[n].client.Failed?
    ensures var why := states[n].client.why;
      why == Retransmits || why == Timeout
      || (why == WrongType && states[n].server.Served? && Joined(Accepted(states[n])) == m.message)
  {
    RunInv(m, states, events, n);
    if states[n].server.Served? { AcceptedBytes(m, states, events, n); }
  }

  // ----- the empty message

  /** The run in which an empty message is announced and answered. */
  function EmptyRun(m: Session): seq<State> {
    var conn := Conn(m.id, 0);
    var answers := {Acc(m.id, UINT64_SIZE - 1), Rcvd(m.id)};
    [INITIAL,
     State(Connecting(0, true), Idle, {conn}, {}),
     State(Connecting(0, true), Served([]), {conn}, answers),
     State(Failed(WrongType), Served([]), {conn}, answers)]
  }

  /** For an empty message the server acknowledges packet 2^64 - 1 and the client fails. */
  lemma EmptyMessageFails(m: Session)
    requires m.message == []
    ensures var events := [ClientRound, ServerStarts(Conn(m.id, 0)), ClientReads(Got(Acc(m.id, UINT64_SIZE - 1)))];
      Run(m, EmptyRun(m), events)
  {
    var states := EmptyRun(m);
    var events := [ClientRound, ServerStarts(Conn(m.id, 0)), ClientReads(Got(Acc(m.id, UINT64_SIZE - 1)))];
    assert Total([]) == 0;
    assert states[1].toServer == {} + {Conn(m.id, 0)};
    assert states[2].toClient == {} + {Acc(m.id, Pred(0)), Rcvd(m.id)};
    forall i | 0 <= i < |events| ensures Enabled(m, states[i], events[i]) && states[i + 1] == Step(m, states[i], events[i]) {
      if i == 0 {} else if i == 1 {} else {}
    }
  }

  ghost predicate AcksWithinMessage(m: Session) {
    forall states: seq<State>, events: seq<Event>, n: nat, p: Packet :: Run(m, states, events) && n < |states| && p in states[n].toClient && p.Acc? ==>
      p.number < |Queue(m)|
  }

  /** Acknowledgements stay within the message exactly when the message is not empty. */
  lemma AcksWithinMessageIff(m: Session)
    requires |m.message| < UINT64_SIZE
    ensures AcksWithinMessage(m) <==> m.message != []
  {
    if m.message == [] {
      EmptyMessageFails(m);
      assert Acc(m.id, UINT64_SIZE - 1) in EmptyRun(m)[2].toClient;
      assert !AcksWithinMessage(m);
    } else {
      forall states: seq<State>, events: seq<Event>, n: nat, p: Packet |
        Run(m, states, events) && n < |states| && p in states[n].toClient && p.Acc?
        ensures p.number < |Queue(m)|
      {
        NoAcknowledgementAhead(m, states, events, n, p);
      }
    }
  }
}
