/** When a transfer can still succeed: from every reachable state as long as neither side has
    given up or is about to, and on a network that delivers every datagram once and in order. */
module UdprProgress {
  import opened UdprTransfer

  /** The client has the confirmation and the server all chunks. */
  ghost predicate Success(m: Session, s: State) {
    s.client == Finished && s.server == Served(Queue(m))
  }

  /** These events can happen one after the other, and lead to success. */
  ghost predicate Succeeds(m: Session, s: State, es: seq<Event>)
    decreases |es|
  {
    if es == [] then Success(m, s) else Enabled(m, s, es[0]) && Succeeds(m, Step(m, s, es[0]), es[1..])
  }

  ghost predicate CanSucceed(m: Session, s: State) {
    exists es :: Succeeds(m, s, es)
  }

  lemma Before(m: Session, s: State, e: Event, es: seq<Event>)
    requires Enabled(m, s, e) && Succeeds(m, Step(m, s, e), es)
    ensures Succeeds(m, s, [e] + es)
  {
    assert ([e] + es)[1..] == es;
  }

  /** Neither side has failed, and none is at the head of its loop with its tries used up. */
  ghost predicate Going(s: State) {
    && !s.client.Failed? && !s.server.GaveUp?
    && ((s.client.Connecting? || s.client.Sending?) && !s.client.reading ==> s.client.tries <= MAX_RETRANSMITS)
    && (s.server.Serving? && !s.server.reading ==> s.server.tries <= MAX_RETRANSMITS)
  }

  // ----- what has been sent

  /** What tells the client that the server waits for this chunk. */
  function Answer(m: Session, expected: nat): Packet {
    if expected == 0 then ConAcc(m.id) else Acc(m.id, expected - 1)
  }

  /** The client is the one to bring the transfer forward: the server has not started or waits for this chunk. */
  predicate ClientOwes(s: State) {
    || (s.client.Connecting? && s.server.Idle?)
    || (s.client.Sending? && s.server.Serving? && s.server.expected == s.client.number)
  }

  /** The server is: the client waits for an answer that the server has to give. */
  predicate ServerOwes(s: State) {
    s.server.Serving? && (s.client.Connecting? || (s.client.Sending? && s.server.expected == s.client.number + 1))
  }

  /** It is not going to send what it owes in its next round. */
  predicate ClientWaits(c: Client) {
    (c.Connecting? && c.reading) || (c.Sending? && !c.send)
  }

  predicate ServerWaits(v: Server) {
    v.Serving? && !v.respond
  }

  /** What was to be sent in this round has been sent before the read. */
  predicate Clean(s: State) {
    && (s.client.Sending? && s.client.reading ==> !s.client.send)
    && (s.server.Serving? && s.server.reading ==> !s.server.respond)
  }

  /** Who owes something and only waits, has sent it. */
  ghost predicate SentInv(m: Session, s: State) {
    && Clean(s)
    && (ClientOwes(s) && ClientWaits(s.client) ==>
          if s.client.Connecting? then Conn(m.id, |m.message|) in s.toServer
          else s.client.number < |Queue(m)| && Data(m.id, s.client.number, Queue(m)[s.client.number]) in s.toServer)
    && (ServerOwes(s) && ServerWaits(s.server) ==> Answer(m, s.server.expected) in s.toClient)
    && (s.server.Served? && (s.client.Sending? || s.client.Finishing?) ==>
          Answer(m, |Queue(m)|) in s.toClient && Rcvd(m.id) in s.toClient)
    && (s.server.Idle? ==> s.toClient == {} && (s.client.Connecting? || s.client.Failed?))
  }

  lemma SentClientKeeps(m: Session, s: State, e: Event)
    requires SessionValid(m) && Inv(m, s) && SentInv(m, s) && Enabled(m, s, e) && (e.ClientRound? || e.ClientReads?)
    ensures SentInv(m, Step(m, s, e))
  {
    hide Queue;
    ChunksFacts(m);
    var s' := Step(m, s, e);
    assert s'.server == s.server && s'.toClient == s.toClient;
    if e.ClientRound? && s.client.tries <= MAX_RETRANSMITS {
      var r := ClientHead(m, s.client);
      assert r.1 != [] ==> r.1[0] in s'.toServer;
    }
  }

  lemma SentServerKeeps(m: Session, s: State, e: Event)
    requires SessionValid(m) && Inv(m, s) && SentInv(m, s) && Enabled(m, s, e) && !e.ClientRound? && !e.ClientReads?
    ensures SentInv(m, Step(m, s, e))
  {
    hide Queue, Total, ReceiveData;
    ChunksFacts(m);
    StepKeeps(m, s, e);
    var s' := Step(m, s, e);
    assert s'.client == s.client && s'.toServer == s.toServer && s.toClient <= s'.toClient;
    var r := match e
      case ServerStarts(p) => NextExpected(m, 0, [])
      case ServerRound => ServerHead(m, s.server)
      case ServerReads(i) => ServerIn(m, s.server, i);
    assert s' == ServerDoes(s, r);
    assert forall k :: 0 <= k < |r.1| ==> r.1[k] in s'.toClient;
    if s'.server.Served? {
      assert r.1 == [Acc(m.id, Pred(|Queue(m)|)), Rcvd(m.id)];
      assert r.1[0] == Answer(m, |Queue(m)|) && r.1[1] == Rcvd(m.id);
    } else if e.ServerRound? && s'.server.Serving? && s.server.respond {
      assert r.1[0] == Answer(m, s.server.expected);
    }
  }

  lemma {:induction false} RunSent(m: Session, states: seq<State>, events: seq<Event>, n: nat)
    requires SessionValid(m) && Run(m, states, events) && n < |states|
    ensures Inv(m, states[n]) && SentInv(m, states[n])
  {
    hide Inv, Step, Enabled;
    RunInv(m, states, events, n);
    if n > 0 {
      RunSent(m, states, events, n - 1);
      var s, e := states[n - 1], events[n - 1];
      assert states[n - 1 + 1] == Step(m, s, e);
      if e.ClientRound? || e.ClientReads? { SentClientKeeps(m, s, e); } else { SentServerKeeps(m, s, e); }
    }
  }

  // ----- from a state that goes on to success

  /** What brings the transfer forward. */
  function Forward(m: Session, s: State): Event
    requires Going(s) && Inv(m, s)
  {
    var own := (s.client.Connecting? || s.client.Sending?) && !s.client.reading;
    if own then ClientRound
    else if s.server.Idle? then ServerStarts(Conn(m.id, |m.message|))
    else if s.server.Serving? && !s.server.reading then ServerRound
    else match s.client
      case Connecting(_, _) => ClientReads(Got(Answer(m, 0)))
      case Sending(number, _, _, _) =>
        if Expected(s) == number then ServerReads(Got(Data(m.id, number, Queue(m)[number])))
        else ClientReads(Got(Answer(m, number + 1)))
      case _ => ClientReads(Got(Rcvd(m.id)))
  }

  /** The acknowledgements the client waits for, the chunks the server waits for, and who is to move. */
  function Left(m: Session, s: State): int {
    var client := match s.client
      case Connecting(_, reading) => 4 * (|Queue(m)| + 2) + (if reading then 0 else 1)
      case Sending(number, _, _, reading) => 4 * (|Queue(m)| + 1 - number) + (if reading then 0 else 1)
      case Finishing => 4
      case _ => 0;
    var server := match s.server
      case Idle => 4 * |Queue(m)| + 2
      case Serving(expected, _, _, _, reading) => 4 * (|Queue(m)| - expected) + (if reading then 0 else 1)
      case _ => 0;
    client + server
  }

  lemma ForwardEnabled(m: Session, s: State)
    requires SessionValid(m) && Inv(m, s) && SentInv(m, s) && Going(s) && s.client != Finished
    ensures Enabled(m, s, Forward(m, s))
  {
    hide Queue, ServerPacketOk, ClientPacketOk;
    ChunksFacts(m);
  }

  lemma ForwardGoes(m: Session, s: State)
    requires SessionValid(m) && Inv(m, s) && SentInv(m, s) && Going(s) && s.client != Finished
    ensures Enabled(m, s, Forward(m, s))
    ensures var s' := Step(m, s, Forward(m, s)); Going(s') && 0 <= Left(m, s') < Left(m, s)
  {
    hide Queue, ServerPacketOk, ClientPacketOk, Total;
    ChunksFacts(m);
    ForwardEnabled(m, s);
    StepKeeps(m, s, Forward(m, s));
  }

  lemma {:induction false} GoingSucceeds(m: Session, s: State)
    requires SessionValid(m) && Inv(m, s) && SentInv(m, s) && Going(s)
    ensures CanSucceed(m, s)
    decreases Left(m, s)
  {
    hide Inv, SentInv, Going, Forward, Step, Enabled, Left;
    if s.client == Finished {
      FinishedSucceeds(m, s);
      assert Succeeds(m, s, []);
    } else {
      ForwardGoes(m, s);
      var e := Forward(m, s);
      StepKeeps(m, s, e);
      if e.ClientRound? || e.ClientReads? { SentClientKeeps(m, s, e); } else { SentServerKeeps(m, s, e); }
      GoingSucceeds(m, Step(m, s, e));
      var es :| Succeeds(m, Step(m, s, e), es);
      Before(m, s, e, es);
    }
  }

  lemma FinishedSucceeds(m: Session, s: State)
    requires SessionValid(m) && Inv(m, s) && Going(s) && s.client == Finished
    ensures Success(m, s)
  {
    hide Queue;
    ChunksFacts(m);
    assert Queue(m)[..|Queue(m)|] == Queue(m);
  }

  /** Once a side has given up, or is about to, the transfer cannot succeed any more. */
  lemma {:induction false} StoppedForGood(m: Session, s: State, es: seq<Event>)
    requires !Going(s)
    ensures !Succeeds(m, s, es)
    decreases |es|
  {
    if es != [] && Enabled(m, s, es[0]) {
      StopStays(m, s, es[0]);
      StoppedForGood(m, Step(m, s, es[0]), es[1..]);
    }
  }

  lemma StopStays(m: Session, s: State, e: Event)
    requires !Going(s) && Enabled(m, s, e)
    ensures !Going(Step(m, s, e))
  {
  }

  /** In every run of the transfer of a message that is not empty, whatever the network has lost,
      doubled or reordered so far: the transfer can still succeed if and only if neither side has
      given up or has used up its tries. */
  lemma CanSucceedIff(m: Session, states: seq<State>, events: seq<Event>, n: nat)
    requires SessionValid(m) && Run(m, states, events) && n < |states|
    ensures CanSucceed(m, states[n]) <==> Going(states[n])
  {
    hide Inv, SentInv, Going, Run, SessionValid, Succeeds;
    var s := states[n];
    RunSent(m, states, events, n);
    if Going(s) {
      GoingSucceeds(m, s);
    } else {
      forall es ensures !Succeeds(m, s, es) { StoppedForGood(m, s, es); }
    }
  }

  // ----- when everything under way is lost

  /** The same moment, with every datagram sent so far lost. */
  function Lost(s: State): State { s.(toServer := {}, toClient := {}) }

  /** Who owes something and only waits has a try left to send it once more, and the server is not
      done while the client still waits for it. */
  ghost predicate Recovers(s: State) {
    && Going(s)
    && (s.server.Served? ==> s.client.Finished?)
    && (ClientOwes(s) && ClientWaits(s.client) ==> s.client.tries < MAX_RETRANSMITS)
    && (ServerOwes(s) && ServerWaits(s.server) ==> s.server.tries < MAX_RETRANSMITS)
  }

  lemma {:induction false} ClientResends(m: Session, s: State)
    requires SessionValid(m) && Inv(m, s) && Recovers(s) && Clean(s) && s == Lost(s)
    requires ClientOwes(s) && ClientWaits(s.client)
    ensures CanSucceed(m, s)
    decreases if s.client.reading then 0 else 1
  {
    hide Queue, Succeeds, CanSucceed;
    ChunksFacts(m);
    var e := if s.client.reading then ClientReads(Nothing) else ClientRound;
    var s' := Step(m, s, e);
    StepKeeps(m, s, e);
    if s.client.reading { GoingSucceeds(m, s'); } else { ClientResends(m, s'); }
    StepCanSucceed(m, s, e);
  }

  lemma {:induction false} ServerResends(m: Session, s: State)
    requires SessionValid(m) && Inv(m, s) && Recovers(s) && Clean(s) && s == Lost(s)
    requires ServerOwes(s) && ServerWaits(s.server)
    ensures CanSucceed(m, s)
    decreases if s.server.reading then 0 else 1
  {
    hide Queue, Succeeds, CanSucceed;
    ChunksFacts(m);
    var e := if s.server.reading then ServerReads(Nothing) else ServerRound;
    var s' := Step(m, s, e);
    StepKeeps(m, s, e);
    if s.server.reading { GoingSucceeds(m, s'); } else { ServerResends(m, s'); }
    StepCanSucceed(m, s, e);
  }

  lemma StepCanSucceed(m: Session, s: State, e: Event)
    requires Enabled(m, s, e) && CanSucceed(m, Step(m, s, e))
    ensures CanSucceed(m, s)
  {
    var es :| Succeeds(m, Step(m, s, e), es);
    Before(m, s, e, es);
  }

  /** What can never be made good again. */
  ghost predicate Doomed(m: Session, s: State) {
    || !Going(s)
    || (s.server.Served? && !s.client.Finished? && Rcvd(m.id) !in s.toClient && forall p :: p in s.toClient ==> !p.Rcvd?)
    || (s.client.Connecting? && s.server.Idle? && s.client.reading && s.client.tries >= MAX_RETRANSMITS
        && s.toServer == {} && s.toClient == {})
    || (s.client.Sending? && ClientOwes(s) && ClientWaits(s.client) && s.client.tries >= MAX_RETRANSMITS
        && s.toServer == {} && forall p :: p in s.toClient ==> p == Answer(m, s.server.expected))
    || (ServerOwes(s) && ServerWaits(s.server) && s.server.tries >= MAX_RETRANSMITS && s.toClient == {}
        && forall p :: p in s.toServer ==> p.Conn? || (p.Data? && p.session == m.id && p.number < s.server.expected))
  }

  lemma DoomedStays(m: Session, s: State, e: Event)
    requires Doomed(m, s) && Clean(s) && Enabled(m, s, e) && |Queue(m)| < UINT64_SIZE
    ensures Doomed(m, Step(m, s, e)) && Clean(Step(m, s, e))
  {
    hide Queue, Total;
  }

  lemma {:induction false} DoomedFails(m: Session, s: State, es: seq<Event>)
    requires Doomed(m, s) && Clean(s) && |Queue(m)| < UINT64_SIZE
    ensures !Succeeds(m, s, es)
    decreases |es|
  {
    hide Clean, Doomed, Step, Enabled;
    if es == [] {
      DoomedIsNoSuccess(m, s);
    } else if Enabled(m, s, es[0]) {
      DoomedStays(m, s, es[0]);
      DoomedFails(m, Step(m, s, es[0]), es[1..]);
    }
  }

  lemma DoomedIsNoSuccess(m: Session, s: State)
    requires Doomed(m, s)
    ensures !Success(m, s)
  {
  }

  /** In every run, at any moment: with every datagram sent so far lost, the transfer can still
      succeed if and only if whoever has to bring it forward has a try left. */
  lemma RecoversIff(m: Session, states: seq<State>, events: seq<Event>, n: nat)
    requires SessionValid(m) && Run(m, states, events) && n < |states|
    ensures CanSucceed(m, Lost(states[n])) <==> Recovers(states[n])
  {
    hide Run, Succeeds, Queue, ServerPacketOk, ClientPacketOk;
    var s := Lost(states[n]);
    RunSent(m, states, events, n);
    ChunksFacts(m);
    if Recovers(s) {
      if ClientOwes(s) && ClientWaits(s.client) { ClientResends(m, s); }
      else if ServerOwes(s) && ServerWaits(s.server) { ServerResends(m, s); }
      else { GoingSucceeds(m, s); }
    } else {
      assert Doomed(m, s);
      forall es ensures !Succeeds(m, s, es) { DoomedFails(m, s, es); }
    }
  }

  // ----- the empty message

  ghost predicate NothingToSend(s: State) {
    && (s.client.Connecting? || s.client.Failed?) && (s.server.Idle? || s.server.Served?)
    && forall p :: p in s.toClient ==> p.Acc? || p.Rcvd?
  }

  lemma {:induction false} EmptyNeverSucceeds(m: Session, s: State, es: seq<Event>)
    requires m.message == [] && NothingToSend(s)
    ensures !Succeeds(m, s, es)
    decreases |es|
  {
    if es != [] && Enabled(m, s, es[0]) { EmptyNeverSucceeds(m, Step(m, s, es[0]), es[1..]); }
  }

  /** A transfer can succeed at all if and only if the message is not empty. */
  lemma TransferPossibleIff(m: Session)
    requires |m.message| < UINT64_SIZE
    ensures CanSucceed(m, INITIAL) <==> m.message != []
  {
    if m.message == [] {
      forall es ensures !Succeeds(m, INITIAL, es) { EmptyNeverSucceeds(m, INITIAL, es); }
    } else {
      PerfectNetwork(m);
    }
  }

  // ----- a network that delivers every datagram once and in order

  /** Chunk k is sent, accepted and acknowledged. */
  function ChunkEvents(m: Session, k: nat): seq<Event>
    requires k < |Queue(m)|
  {
    [ClientRound, ServerReads(Got(Data(m.id, k, Queue(m)[k])))]
    + (if k + 1 < |Queue(m)| then [ServerRound] else [])
    + [ClientReads(Got(Acc(m.id, k)))]
  }

  function ChunksFrom(m: Session, k: nat): seq<Event>
    requires k <= |Queue(m)|
    decreases |Queue(m)| - k
  {
    if k == |Queue(m)| then [ClientReads(Got(Rcvd(m.id)))] else ChunkEvents(m, k) + ChunksFrom(m, k + 1)
  }

  function PerfectEvents(m: Session): seq<Event> {
    [ClientRound, ServerStarts(Conn(m.id, |m.message|)), ServerRound, ClientReads(Got(ConAcc(m.id)))] + ChunksFrom(m, 0)
  }

  /** The client is about to send chunk k, which the server waits for; or both are done but for the confirmation. */
  ghost predicate InStep(m: Session, s: State, k: nat)
    requires k <= |Queue(m)|
  {
    && s.client == NextChunk(m, k)
    && if k < |Queue(m)| then s.server == Serving(k, Queue(m)[..k], 0, false, true)
       else s.server == Served(Queue(m)) && Rcvd(m.id) in s.toClient
  }

  /** Chunk k, up to its acknowledgement. */
  lemma ChunkAcknowledged(m: Session, s: State, k: nat) returns (t: State)
    requires SessionValid(m) && k < |Queue(m)| && InStep(m, s, k)
    ensures InStep(m, t, k + 1)
    ensures forall es :: Succeeds(m, t, es) ==> Succeeds(m, s, ChunkEvents(m, k) + es)
  {
    hide Queue, Succeeds, Step, Enabled, InStep;
    var data, e4 := Data(m.id, k, Queue(m)[k]), ClientReads(Got(Acc(m.id, k)));
    var e2 := ServerReads(Got(data));
    var s1 := ChunkSent(m, s, k);
    AcknowledgementSent(m, s1, data, k);
    var s2 := Step(m, s1, e2);
    var s3 := if k + 1 < |Queue(m)| then Step(m, s2, ServerRound) else s2;
    AcknowledgementRead(m, s3, k);
    t := Step(m, s3, e4);
    forall es | Succeeds(m, t, es) ensures Succeeds(m, s, ChunkEvents(m, k) + es) {
      Before(m, s3, e4, es);
      var later := if k + 1 < |Queue(m)| then [ServerRound] + ([e4] + es) else [e4] + es;
      if k + 1 < |Queue(m)| { Before(m, s2, ServerRound, [e4] + es); }
      Before(m, s1, e2, later);
      Before(m, s, ClientRound, [e2] + later);
      assert [ClientRound] + ([e2] + later) == ChunkEvents(m, k) + es;
    }
  }

  lemma ChunkSent(m: Session, s: State, k: nat) returns (s1: State)
    requires SessionValid(m) && k < |Queue(m)| && InStep(m, s, k)
    ensures Enabled(m, s, ClientRound) && s1 == Step(m, s, ClientRound)
    ensures s1.client == Sending(k, 0, false, true) && s1.server == Serving(k, Queue(m)[..k], 0, false, true)
    ensures Data(m.id, k, Queue(m)[k]) in s1.toServer
    ensures Enabled(m, s1, ServerReads(Got(Data(m.id, k, Queue(m)[k]))))
  {
    hide Queue;
    s1 := Step(m, s, ClientRound);
    assert ClientHead(m, s.client).1[0] == Data(m.id, k, Queue(m)[k]);
  }

  lemma AcknowledgementRead(m: Session, s: State, k: nat)
    requires SessionValid(m) && k < |Queue(m)| && s.client == Sending(k, 0, false, true) && Acc(m.id, k) in s.toClient
    requires if k + 1 < |Queue(m)| then s.server == Serving(k + 1, Queue(m)[..k + 1], 0, false, true)
             else s.server == Served(Queue(m)) && Rcvd(m.id) in s.toClient
    ensures Enabled(m, s, ClientReads(Got(Acc(m.id, k)))) && InStep(m, Step(m, s, ClientReads(Got(Acc(m.id, k)))), k + 1)
  {
    hide Queue;
    ChunksFacts(m);
  }

  lemma AcknowledgementSent(m: Session, s: State, data: Packet, k: nat)
    requires SessionValid(m) && k < |Queue(m)| && s.server == Serving(k, Queue(m)[..k], 0, false, true)
    requires data == Data(m.id, k, Queue(m)[k]) && data in s.toServer
    ensures var s2 := Step(m, s, ServerReads(Got(data)));
      && s2.client == s.client
      && if k + 1 < |Queue(m)| then
           && Enabled(m, s2, ServerRound)
           && var s3 := Step(m, s2, ServerRound);
              && s3.client == s.client && s3.server == Serving(k + 1, Queue(m)[..k + 1], 0, false, true)
              && Acc(m.id, k) in s3.toClient
         else s2.server == Served(Queue(m)) && Acc(m.id, k) in s2.toClient && Rcvd(m.id) in s2.toClient
  {
    hide Queue, Total;
    ChunksFacts(m);
    assert Queue(m)[..k] + [Queue(m)[k]] == Queue(m)[..k + 1];
    var s2 := Step(m, s, ServerReads(Got(data)));
    if k + 1 < |Queue(m)| {
      var s3 := Step(m, s2, ServerRound);
      assert Acc(m.id, k) in s3.toClient by { assert ServerHead(m, s2.server).1[0] == Acc(m.id, k); }
    } else {
      assert Queue(m)[..k + 1] == Queue(m);
      var sent := ServerIn(m, s.server, Got(data)).1;
      assert sent == [Acc(m.id, k), Rcvd(m.id)];
      assert sent[0] in s2.toClient && sent[1] in s2.toClient;
    }
  }

  lemma {:induction false} PerfectChunks(m: Session, s: State, k: nat)
    requires SessionValid(m) && k <= |Queue(m)| && InStep(m, s, k)
    ensures Succeeds(m, s, ChunksFrom(m, k))
    decreases |Queue(m)| - k
  {
    hide Queue, Total, ChunkEvents;
    if k == |Queue(m)| {
      var e := ClientReads(Got(Rcvd(m.id)));
      assert Succeeds(m, Step(m, s, e), []);
      Before(m, s, e, []);
      assert [e] + [] == ChunksFrom(m, k);
    } else {
      var t := ChunkAcknowledged(m, s, k);
      PerfectChunks(m, t, k + 1);
    }
  }

  lemma ServerOpens(m: Session)
    requires m.message != []
    ensures NextExpected(m, 0, []) == (Serving(0, [], 0, true, false), [])
  {
  }

  /** With every datagram delivered once, in order and in time, any message that is not empty is
      transferred without a datagram being sent twice. */
  lemma PerfectNetwork(m: Session)
    requires SessionValid(m)
    ensures Succeeds(m, INITIAL, PerfectEvents(m))
  {
    hide Queue, Total, ChunksFrom, NextExpected;
    ChunksFacts(m);
    ServerOpens(m);
    var conn, acc := Conn(m.id, |m.message|), ConAcc(m.id);
    var e2, e4 := ServerStarts(conn), ClientReads(Got(acc));
    var s1 := Step(m, INITIAL, ClientRound);
    assert conn in s1.toServer by { assert ClientHead(m, INITIAL.client).1[0] == conn; }
    var s2 := Step(m, s1, e2);
    assert s2.server == Serving(0, [], 0, true, false);
    var s3 := Step(m, s2, ServerRound);
    assert acc in s3.toClient by { assert ServerHead(m, s2.server).1[0] == acc; }
    var s4 := Step(m, s3, e4);
    PerfectChunks(m, s4, 0);
    var rest := ChunksFrom(m, 0);
    Before(m, s3, e4, rest);
    Before(m, s2, ServerRound, [e4] + rest);
    Before(m, s1, e2, [ServerRound] + ([e4] + rest));
    Before(m, INITIAL, ClientRound, [e2] + ([ServerRound] + ([e4] + rest)));
    assert [ClientRound] + ([e2] + ([ServerRound] + ([e4] + rest))) == PerfectEvents(m);
  }
}
