/** Barrier, broadcast and reduce as one protocol over the tree of `CollectiveTree`: sums and
    data travel up, the root's verdict and payload travel down. Ranks make any sequence of
    collective calls, with any roots, take their steps in any order and talk over FIFO channels;
    no rank finalizes. Every message fits one packet. */
module CollectiveRuns {
  import opened CollectiveTree
  import opened CollectiveRoots
  import opened Collectives
  import opened Prelude

  const PACKET_SIZE: nat := 4000
  const HEADER_SIZE: nat := 12

  /** A collective call, as all ranks make it: `rows[r]` is what rank r contributes. */
  datatype Call = Barrier | Bcast(root: nat, data: seq<Byte>) | Reduce(root: nat, op: Op, rows: Rows)

  predicate CallValid(call: Call, size: nat) {
    match call
    case Barrier => size > 0
    case Bcast(root, data) => root < size && |data| <= PACKET_SIZE - HEADER_SIZE
    case Reduce(root, op, rows) => root < size && Rectangular(rows, size) && |rows[0]| <= PACKET_SIZE - HEADER_SIZE
  }

  /** The number of ranks and the calls they make, one after another. */
  datatype Config = Config(size: nat, calls: nat -> Call)

  ghost predicate ConfigValid(c: Config) {
    c.size > 0 && forall j :: CallValid(c.calls(j), c.size)
  }

  function Root(c: Config, j: nat): nat { if c.calls(j).Barrier? then 0 else c.calls(j).root }

  function Operator(c: Config, j: nat): Op { if c.calls(j).Reduce? then c.calls(j).op else Max }

  function RowsOf(c: Config, j: nat): Rows {
    if c.calls(j).Reduce? then c.calls(j).rows else seq(c.size, r => [])
  }

  /** What the root sends down with its verdict. */
  function Payload(c: Config, j: nat): seq<Byte> { if c.calls(j).Bcast? then c.calls(j).data else [] }

  lemma CallParts(c: Config, j: nat)
    requires ConfigValid(c)
    ensures Root(c, j) < c.size && Rectangular(RowsOf(c, j), c.size)
  {
    assert CallValid(c.calls(j), c.size);
  }

  // ----- the machine

  /** Between two of its steps a rank is outside a collective, or has entered it, read its
      first and second child, sent its sum up, got the verdict, sent it to its first child. */
  datatype Pc = Outside | Entered | GotFirst | GotSecond | SentUp | GotVerdict | SentFirst

  function Number(pc: Pc): nat {
    match pc
    case Outside => 0
    case Entered => 1
    case GotFirst => 2
    case GotSecond => 3
    case SentUp => 4
    case GotVerdict => 5
    case SentFirst => 6
  }

  datatype UpPacket = UpPacket(sum: nat, data: seq<Byte>)
  datatype DownPacket = DownPacket(ok: bool, data: seq<Byte>)

  /** What a call returned: success, the payload received, the data reduced at this rank. */
  datatype Outcome = Outcome(ok: bool, received: seq<Byte>, reduced: seq<Byte>)

  datatype Rank = Rank(round: nat, pc: Pc, sum: nat, acc: seq<Byte>, ok: bool, received: seq<Byte>,
                       outcomes: seq<Outcome>)

  /** A channel is named by the parent and the side of the child, whatever the root of the call
      is; the barrier has channels of its own. */
  datatype Channel = Channel(barrier: bool, parent: int, first: bool)

  datatype State = State(ranks: seq<Rank>, up: map<Channel, seq<UpPacket>>, down: map<Channel, seq<DownPacket>>)

  predicate Alive(c: Config, j: nat, r: nat, first: bool)
    requires Root(c, j) < c.size
  {
    ChildAlive(r, first, Root(c, j), c.size)
  }

  function ChildIn(c: Config, j: nat, r: nat, first: bool): int
    requires Root(c, j) < c.size
  {
    Child(r, first, Root(c, j), c.size)
  }

  function ParentIn(c: Config, j: nat, r: nat): int
    requires Root(c, j) < c.size
  {
    Parent(r, Root(c, j), c.size)
  }

  predicate LeftIn(c: Config, j: nat, r: nat)
    requires Root(c, j) < c.size
  {
    LeftChild(r, Root(c, j), c.size)
  }

  /** The channel of call j between a parent and its child. */
  function Line(c: Config, j: nat, parent: int, first: bool): Channel {
    Channel(c.calls(j).Barrier?, parent, first)
  }

  function Queue<P>(channels: map<Channel, seq<P>>, key: Channel): seq<P> {
    if key in channels then channels[key] else []
  }

  function Send<P>(channels: map<Channel, seq<P>>, key: Channel, p: P): map<Channel, seq<P>> {
    channels[key := Queue(channels, key) + [p]]
  }

  function Receive<P>(channels: map<Channel, seq<P>>, key: Channel): map<Channel, seq<P>>
    requires Queue(channels, key) != []
  {
    channels[key := Queue(channels, key)[1..]]
  }

  /** A rank's step is blocked exactly while it waits for a message on an empty channel. */
  ghost predicate Enabled(c: Config, s: State, r: nat)
    requires ConfigValid(c)
  {
    && r < |s.ranks| == c.size
    && var j := s.ranks[r].round;
       CallParts(c, j);
       match s.ranks[r].pc
       case Entered => Alive(c, j, r, true) ==> Queue(s.up, Line(c, j, r, true)) != []
       case GotFirst => Alive(c, j, r, false) ==> Queue(s.up, Line(c, j, r, false)) != []
       case SentUp => r != Root(c, j) ==> Queue(s.down, Line(c, j, ParentIn(c, j, r), LeftIn(c, j, r))) != []
       case _ => true
  }

  function Enter(c: Config, k: Rank, r: nat): Rank
    requires r < |RowsOf(c, k.round)|
  {
    k.(pc := Entered, sum := 1, acc := RowsOf(c, k.round)[r])
  }

  function Gather(c: Config, k: Rank, p: UpPacket): Rank {
    k.(sum := k.sum + p.sum, acc := CombineRows(Operator(c, k.round), k.acc, p.data))
  }

  function Return(k: Rank): Rank {
    k.(pc := Outside, round := k.round + 1, outcomes := k.outcomes + [Outcome(k.ok, k.received, k.acc)])
  }

  ghost function Step(c: Config, s: State, r: nat): State
    requires ConfigValid(c) && Enabled(c, s, r)
  {
    var k := s.ranks[r];
    var j := k.round;
    CallParts(c, j);
    match k.pc
    case Outside => s.(ranks := s.ranks[r := Enter(c, k, r)])
    case Entered => ReadChild(c, s, r, true, GotFirst)
    case GotFirst => ReadChild(c, s, r, false, GotSecond)
    case GotSecond =>
      s.(ranks := s.ranks[r := k.(pc := SentUp)],
         up := if r == Root(c, j) then s.up
               else Send(s.up, Line(c, j, ParentIn(c, j, r), LeftIn(c, j, r)), UpPacket(k.sum, k.acc)))
    case SentUp =>
      if r == Root(c, j) then
        s.(ranks := s.ranks[r := k.(pc := GotVerdict, ok := k.sum == c.size, received := Payload(c, j))])
      else
        var key := Line(c, j, ParentIn(c, j, r), LeftIn(c, j, r));
        var p := Queue(s.down, key)[0];
        s.(ranks := s.ranks[r := k.(pc := GotVerdict, ok := p.ok, received := p.data)], down := Receive(s.down, key))
    case GotVerdict =>
      s.(ranks := s.ranks[r := k.(pc := SentFirst)], down := TellChild(c, s.down, k, r, true))
    case SentFirst =>
      s.(ranks := s.ranks[r := Return(k)], down := TellChild(c, s.down, k, r, false))
  }

  function ReadChild(c: Config, s: State, r: nat, first: bool, pc: Pc): State
    requires r < |s.ranks| && Root(c, s.ranks[r].round) < c.size
    requires var j := s.ranks[r].round; Alive(c, j, r, first) ==> Queue(s.up, Line(c, j, r, first)) != []
  {
    var k := s.ranks[r];
    var key := Line(c, k.round, r, first);
    if Alive(c, k.round, r, first) then
      s.(ranks := s.ranks[r := Gather(c, k, Queue(s.up, key)[0]).(pc := pc)], up := Receive(s.up, key))
    else
      s.(ranks := s.ranks[r := k.(pc := pc)])
  }

  function TellChild(c: Config, down: map<Channel, seq<DownPacket>>, k: Rank, r: nat, first: bool)
    : map<Channel, seq<DownPacket>>
    requires Root(c, k.round) < c.size
  {
    if Alive(c, k.round, r, first) then Send(down, Line(c, k.round, r, first), DownPacket(k.ok, k.received)) else down
  }

  ghost predicate Initial(c: Config, s: State) {
    && |s.ranks| == c.size
    && (forall r :: 0 <= r < c.size ==> s.ranks[r].round == 0 && s.ranks[r].pc == Outside && s.ranks[r].outcomes == [])
    && s.up == map[] && s.down == map[]
  }

  /** A run: at each moment some rank that is not blocked takes its next step. */
  ghost predicate Run(c: Config, states: seq<State>, schedule: seq<nat>)
    requires ConfigValid(c)
  {
    && |states| == |schedule| + 1 && Initial(c, states[0])
    && forall i :: 0 <= i < |schedule| ==>
         Enabled(c, states[i], schedule[i]) && states[i + 1] == Step(c, states[i], schedule[i])
  }

  // ----- the invariant

  // In how many calls a rank has done each action.

  function Done(k: Rank, n: nat): nat { k.round + if Number(k.pc) >= n then 1 else 0 }

  function EnteredRounds(k: Rank): nat { Done(k, 1) }
  function ReadFrom(k: Rank, first: bool): nat { if first then Done(k, 2) else Done(k, 3) }
  function SentUpRounds(k: Rank): nat { Done(k, 4) }
  function VerdictRounds(k: Rank): nat { Done(k, 5) }
  function ToldRounds(k: Rank, first: bool): nat { if first then Done(k, 6) else k.round }

  ghost function SubtreeIn(c: Config, j: nat, r: nat): set<nat>
    requires Root(c, j) < c.size && r < c.size
  {
    Subtree(r, Root(c, j), c.size)
  }

  ghost function FoldIn(c: Config, j: nat, p: set<nat>): seq<Byte>
    requires Rectangular(RowsOf(c, j), c.size)
  {
    FoldRows(Operator(c, j), RowsOf(c, j), c.size, p)
  }

  ghost function UpMessage(c: Config, j: nat, r: nat): UpPacket
    requires ConfigValid(c) && r < c.size
  {
    CallParts(c, j);
    UpPacket(|SubtreeIn(c, j, r)|, FoldIn(c, j, SubtreeIn(c, j, r)))
  }

  function DownMessage(c: Config, j: nat): DownPacket { DownPacket(true, Payload(c, j)) }

  /** What is on its way up to rank p: the packet of the call p has to read next, if it was sent. */
  ghost function UpWaiting(c: Config, s: State, key: Channel): seq<UpPacket>
    requires ConfigValid(c) && |s.ranks| == c.size && 0 <= key.parent < c.size
  {
    var j := ReadFrom(s.ranks[key.parent], key.first);
    CallParts(c, j);
    var q := ChildIn(c, j, key.parent, key.first);
    if key == Line(c, j, key.parent, key.first) && Alive(c, j, key.parent, key.first)
       && 0 <= q < c.size && SentUpRounds(s.ranks[q]) > j
    then [UpMessage(c, j, q)] else []
  }

  /** What is on its way down from rank p: the verdict of the last call p has sent on, if the
      child of that call has not read it. */
  ghost function DownWaiting(c: Config, s: State, key: Channel): seq<DownPacket>
    requires ConfigValid(c) && |s.ranks| == c.size && 0 <= key.parent < c.size
  {
    var told := ToldRounds(s.ranks[key.parent], key.first);
    if told == 0 then [] else
      var j := told - 1;
      CallParts(c, j);
      var q := ChildIn(c, j, key.parent, key.first);
      if key == Line(c, j, key.parent, key.first) && Alive(c, j, key.parent, key.first)
         && 0 <= q < c.size && VerdictRounds(s.ranks[q]) <= j
      then [DownMessage(c, j)] else []
  }

  ghost predicate ChannelsOk(c: Config, s: State)
    requires ConfigValid(c) && |s.ranks| == c.size
  {
    forall key: Channel :: 0 <= key.parent < c.size ==>
      Queue(s.up, key) == UpWaiting(c, s, key) && Queue(s.down, key) == DownWaiting(c, s, key)
  }

  /** In call j the parent of r has read its packet only if r sent it, and r has the verdict
      only if the parent sent it. */
  ghost predicate OrderOk(c: Config, s: State, j: nat, r: nat)
    requires ConfigValid(c) && |s.ranks| == c.size && r < c.size
  {
    CallParts(c, j);
    r != Root(c, j) ==>
      var p, first := ParentIn(c, j, r), LeftIn(c, j, r);
      && 0 <= p < c.size
      && (ReadFrom(s.ranks[p], first) > j ==> SentUpRounds(s.ranks[r]) > j)
      && (VerdictRounds(s.ranks[r]) > j ==> ToldRounds(s.ranks[p], first) > j)
  }

  /** The ranks whose data rank r has gathered so far in its call. */
  ghost function Gathered(c: Config, j: nat, r: nat, pc: Pc): set<nat>
    requires Root(c, j) < c.size && r < c.size
  {
    {r} + (if Number(pc) >= 2 then FirstSubtree(r, Root(c, j), c.size) else {})
        + (if Number(pc) >= 3 then SecondSubtree(r, Root(c, j), c.size) else {})
  }

  ghost predicate OutcomeOk(c: Config, j: nat, r: nat, o: Outcome)
    requires ConfigValid(c) && r < c.size
  {
    CallParts(c, j);
    o == Outcome(true, Payload(c, j), FoldIn(c, j, SubtreeIn(c, j, r)))
  }

  ghost predicate RankOk(c: Config, k: Rank, r: nat)
    requires ConfigValid(c) && r < c.size
  {
    CallParts(c, k.round);
    && (k.pc != Outside ==>
          k.sum == |Gathered(c, k.round, r, k.pc)| && k.acc == FoldIn(c, k.round, Gathered(c, k.round, r, k.pc)))
    && (Number(k.pc) >= 5 ==> k.ok && k.received == Payload(c, k.round))
    && |k.outcomes| == k.round
    && forall i :: 0 <= i < k.round ==> OutcomeOk(c, i, r, k.outcomes[i])
  }

  ghost predicate Inv(c: Config, s: State)
    requires ConfigValid(c)
  {
    && |s.ranks| == c.size
    && (forall r :: 0 <= r < c.size ==> RankOk(c, s.ranks[r], r))
    && (forall j: nat, r :: 0 <= r < c.size ==> OrderOk(c, s, j, r))
    && ChannelsOk(c, s)
  }

  /** The message a rank waits for was sent in the rank's own call. */
  ghost predicate Ready(c: Config, s: State, r: nat)
    requires ConfigValid(c) && |s.ranks| == c.size && r < c.size
  {
    var j := s.ranks[r].round;
    CallParts(c, j);
    match s.ranks[r].pc
    case Entered => Alive(c, j, r, true) ==> HasSentUp(s, j, ChildIn(c, j, r, true))
    case GotFirst => Alive(c, j, r, false) ==> HasSentUp(s, j, ChildIn(c, j, r, false))
    case SentUp => r != Root(c, j) ==> HasTold(s, j, ParentIn(c, j, r), LeftIn(c, j, r))
    case _ => true
  }

  predicate HasSentUp(s: State, j: nat, q: int) {
    0 <= q < |s.ranks| && SentUpRounds(s.ranks[q]) > j
  }

  predicate HasTold(s: State, j: nat, p: int, first: bool) {
    0 <= p < |s.ranks| && ToldRounds(s.ranks[p], first) > j
  }
}
