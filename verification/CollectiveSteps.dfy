/** Every step of a rank whose message was sent in its own call keeps the invariant of
    `CollectiveRuns`; and when the roots of neighbouring calls go together, no other message
    can be at the head of the channel. */
module CollectiveSteps {
  import opened CollectiveTree
  import opened CollectiveRoots
  import opened Collectives
  import opened CollectiveRuns
  import opened Prelude

  lemma PlaceOfParent(c: Config, j: nat, x: nat)
    requires ConfigValid(c) && Root(c, j) < c.size && x < c.size && x != Root(c, j)
    ensures 0 <= ParentIn(c, j, x) < c.size && Place(x, Root(c, j), c.size) > 0
    ensures Place(ParentIn(c, j, x), Root(c, j), c.size) == (Place(x, Root(c, j), c.size) - 1) / 2
  {
    hide Root, Place, RankAt, Parent, LeftChild, Child1, Child2, Child1Alive, Child2Alive;
    ParentFormulas(x, Root(c, j), c.size);
    PlaceRank(Root(c, j), c.size);
    FamilyAgrees(x, Root(c, j), c.size);
  }

  // ----- who is in step with whom

  /** A rank sends its sum after it has read its children, and tells them after it has the verdict. */
  lemma OneRank(k: Rank, first: bool, j: nat)
    ensures SentUpRounds(k) > j ==> ReadFrom(k, first) > j
    ensures ToldRounds(k, first) > j ==> VerdictRounds(k) > j
  {
  }

  /** Within a call the sums below a rank come before its own, and its verdict before theirs. */
  lemma {:induction false} Chain(c: Config, s: State, j: nat, x: nat, y: nat)
    requires ConfigValid(c) && |s.ranks| == c.size && x < c.size && y < c.size && Root(c, j) < c.size
    requires forall r :: 0 <= r < c.size ==> OrderOk(c, s, j, r)
    requires Under(Place(x, Root(c, j), c.size), Place(y, Root(c, j), c.size))
    ensures SentUpRounds(s.ranks[y]) > j ==> SentUpRounds(s.ranks[x]) > j
    ensures VerdictRounds(s.ranks[x]) > j ==> VerdictRounds(s.ranks[y]) > j
    decreases Place(x, Root(c, j), c.size)
  {
    hide Root, ParentIn, LeftIn, Place, SentUpRounds, VerdictRounds, ReadFrom, ToldRounds;
    var root := Root(c, j);
    SamePlace(x, y, root, c.size);
    if x != y {
      RootPlace(root, c.size);
      NotAbove(Place(x, root, c.size), Place(y, root, c.size));
      PlaceOfParent(c, j, x);
      assert OrderOk(c, s, j, x);
      Chain(c, s, j, ParentIn(c, j, x), y);
      OneRank(s.ranks[x], LeftIn(c, j, x), j);
      OneRank(s.ranks[ParentIn(c, j, x)], LeftIn(c, j, x), j);
    }
  }

  /** No rank has the verdict of a call before all ranks have sent their sums in it. */
  lemma Synchronised(c: Config, s: State, j: nat, r: nat, q: nat)
    requires ConfigValid(c) && |s.ranks| == c.size && r < c.size && q < c.size
    requires forall x :: 0 <= x < c.size ==> OrderOk(c, s, j, x)
    ensures VerdictRounds(s.ranks[r]) > j ==> SentUpRounds(s.ranks[q]) > j
  {
    CallParts(c, j);
    var root := Root(c, j);
    UnderRoot(Place(r, root, c.size));
    UnderRoot(Place(q, root, c.size));
    Chain(c, s, j, r, root);
    Chain(c, s, j, q, root);
  }

  /** So ranks are never more than one call apart, and nobody is past the sums of a call that
      somebody has not entered. */
  lemma InStep(c: Config, s: State, r: nat, q: nat)
    requires ConfigValid(c) && Inv(c, s) && r < c.size && q < c.size
    ensures SentUpRounds(s.ranks[q]) >= s.ranks[r].round
    ensures VerdictRounds(s.ranks[r]) <= SentUpRounds(s.ranks[q])
  {
    hide RankOk, OrderOk, ChannelsOk;
    var v := VerdictRounds(s.ranks[r]);
    if v > 0 { Synchronised(c, s, v - 1, r, q); }
  }

  // ----- the tree of a call

  /** The child of a rank on a side, and the rank whose child that is. */
  lemma Family(c: Config, j: nat, r: nat, first: bool)
    requires ConfigValid(c) && r < c.size && Root(c, j) < c.size
    ensures Alive(c, j, r, first) ==>
      var q := ChildIn(c, j, r, first);
      0 <= q < c.size && q != Root(c, j) && ParentIn(c, j, q) == r && LeftIn(c, j, q) == first
  {
    FamilyAgrees(r, Root(c, j), c.size);
  }

  lemma FamilyUp(c: Config, j: nat, r: nat)
    requires ConfigValid(c) && r < c.size && Root(c, j) < c.size && r != Root(c, j)
    ensures var p, first := ParentIn(c, j, r), LeftIn(c, j, r);
      0 <= p < c.size && p != r && Alive(c, j, p, first) && ChildIn(c, j, p, first) == r
  {
    FamilyAgrees(r, Root(c, j), c.size);
  }

  // ----- one rank changes

  /** What a step leaves: the order of the other ranks, and the channels that hang on r only. */
  ghost predicate OnlyRank(c: Config, s: State, s': State, r: nat) {
    && |s.ranks| == |s'.ranks| == c.size && r < c.size
    && forall q :: 0 <= q < c.size && q != r ==> s'.ranks[q] == s.ranks[q]
  }

  lemma UpKept(c: Config, s: State, s': State, r: nat, key: Channel)
    requires ConfigValid(c) && OnlyRank(c, s, s', r) && 0 <= key.parent < c.size
    requires SentUpRounds(s'.ranks[r]) == SentUpRounds(s.ranks[r])
    requires key.parent == r ==> ReadFrom(s'.ranks[r], key.first) == ReadFrom(s.ranks[r], key.first)
    ensures UpWaiting(c, s', key) == UpWaiting(c, s, key)
  {
    hide Alive, ChildIn, Line, UpMessage, SentUpRounds, ReadFrom;
  }

  lemma DownKept(c: Config, s: State, s': State, r: nat, key: Channel)
    requires ConfigValid(c) && OnlyRank(c, s, s', r) && 0 <= key.parent < c.size
    requires VerdictRounds(s'.ranks[r]) == VerdictRounds(s.ranks[r])
    requires key.parent == r ==> ToldRounds(s'.ranks[r], key.first) == ToldRounds(s.ranks[r], key.first)
    ensures DownWaiting(c, s', key) == DownWaiting(c, s, key)
  {
    hide Alive, ChildIn, Line, DownMessage, VerdictRounds, ToldRounds;
  }

  lemma OrderKept(c: Config, s: State, s': State, r: nat, j: nat, q: nat)
    requires ConfigValid(c) && OnlyRank(c, s, s', r) && q < c.size && Root(c, j) < c.size && OrderOk(c, s, j, q)
    requires SentUpRounds(s'.ranks[r]) >= SentUpRounds(s.ranks[r])
    requires forall first :: ToldRounds(s'.ranks[r], first) >= ToldRounds(s.ranks[r], first)
    requires q == r != Root(c, j) && VerdictRounds(s'.ranks[r]) > j ==>
               VerdictRounds(s.ranks[r]) > j || HasTold(s', j, ParentIn(c, j, r), LeftIn(c, j, r))
    requires q != Root(c, j) && ParentIn(c, j, q) == r && ReadFrom(s'.ranks[r], LeftIn(c, j, q)) > j ==>
               ReadFrom(s.ranks[r], LeftIn(c, j, q)) > j || SentUpRounds(s'.ranks[q]) > j
    ensures OrderOk(c, s', j, q)
  {
    hide ParentIn, LeftIn, ReadFrom, SentUpRounds, VerdictRounds, ToldRounds;
  }

  /** A step after which the invariant holds for the rank itself and for what hangs on it. */
  lemma InvKept(c: Config, s: State, s': State, r: nat)
    requires ConfigValid(c) && Inv(c, s) && OnlyRank(c, s, s', r) && RankOk(c, s'.ranks[r], r)
    requires forall j: nat, q :: 0 <= q < c.size ==> OrderOk(c, s', j, q)
    requires ChannelsOk(c, s')
    ensures Inv(c, s')
  {
    hide RankOk, OrderOk, ChannelsOk;
  }

  lemma EnterKeeps(c: Config, s: State, r: nat)
    requires ConfigValid(c) && Inv(c, s) && Enabled(c, s, r) && s.ranks[r].pc == Outside
    ensures Inv(c, Step(c, s, r))
  {
    hide Alive, ChildIn, ParentIn, LeftIn, OrderOk, UpWaiting, DownWaiting, RankOk;
    var s' := Step(c, s, r);
    EnteredOk(c, s.ranks[r], r);
    forall i: nat, q | 0 <= q < c.size ensures OrderOk(c, s', i, q) {
      CallParts(c, i);
      assert OrderOk(c, s, i, q);
      OrderKept(c, s, s', r, i, q);
    }
    forall key: Channel | 0 <= key.parent < c.size
      ensures Queue(s'.up, key) == UpWaiting(c, s', key) && Queue(s'.down, key) == DownWaiting(c, s', key)
    {
      UpKept(c, s, s', r, key);
      DownKept(c, s, s', r, key);
    }
    InvKept(c, s, s', r);
  }

  lemma EnteredOk(c: Config, k: Rank, r: nat)
    requires ConfigValid(c) && r < c.size && RankOk(c, k, r) && k.pc == Outside && r < |RowsOf(c, k.round)|
    ensures RankOk(c, Enter(c, k, r), r)
  {
    hide OutcomeOk;
    CallParts(c, k.round);
    FoldRowsSingle(Operator(c, k.round), RowsOf(c, k.round), c.size, r);
    assert Gathered(c, k.round, r, Entered) == {r};
  }

  // ----- reading a child's sum

  lemma DisjointSize(a: set<nat>, b: set<nat>)
    requires a !! b
    ensures |a + b| == |a| + |b|
  {
  }

  ghost function ChildSubtree(c: Config, j: nat, r: nat, first: bool): set<nat>
    requires Root(c, j) < c.size && r < c.size
  {
    if first then FirstSubtree(r, Root(c, j), c.size) else SecondSubtree(r, Root(c, j), c.size)
  }

  lemma GatherDisjoint(c: Config, j: nat, r: nat, pc: Pc, first: bool)
    requires ConfigValid(c) && r < c.size && Root(c, j) < c.size
    requires (pc == Entered && first) || (pc == GotFirst && !first)
    ensures var before, sub := Gathered(c, j, r, pc), ChildSubtree(c, j, r, first);
      && Gathered(c, j, r, if first then GotFirst else GotSecond) == before + sub && before !! sub
      && |before + sub| == |before| + |sub|
  {
    hide FirstSubtree, SecondSubtree, Subtree;
    SubtreeSplit(r, Root(c, j), c.size);
    DisjointSize(Gathered(c, j, r, pc), ChildSubtree(c, j, r, first));
  }

  lemma ChildSubtreeIs(c: Config, j: nat, r: nat, first: bool)
    requires ConfigValid(c) && r < c.size && Root(c, j) < c.size
    ensures if Alive(c, j, r, first)
            then 0 <= ChildIn(c, j, r, first) < c.size
                 && ChildSubtree(c, j, r, first) == SubtreeIn(c, j, ChildIn(c, j, r, first))
            else ChildSubtree(c, j, r, first) == {}
  {
    hide Subtree;
    FamilyAgrees(r, Root(c, j), c.size);
  }

  lemma GatheredAll(c: Config, j: nat, r: nat, pc: Pc)
    requires ConfigValid(c) && r < c.size && Root(c, j) < c.size && Number(pc) >= 3
    ensures Gathered(c, j, r, pc) == SubtreeIn(c, j, r)
  {
    hide FirstSubtree, SecondSubtree, Subtree;
    SubtreeSplit(r, Root(c, j), c.size);
  }

  lemma GatheredRank(c: Config, k: Rank, r: nat, first: bool, pc: Pc, p: UpPacket)
    requires ConfigValid(c) && r < c.size && RankOk(c, k, r) && Root(c, k.round) < c.size
    requires (k.pc == Entered && first && pc == GotFirst) || (k.pc == GotFirst && !first && pc == GotSecond)
    requires Alive(c, k.round, r, first) ==>
               var q := ChildIn(c, k.round, r, first); 0 <= q < c.size && p == UpMessage(c, k.round, q)
    ensures RankOk(c, if Alive(c, k.round, r, first) then Gather(c, k, p).(pc := pc) else k.(pc := pc), r)
  {
    hide Alive, ChildIn, Subtree, FirstSubtree, SecondSubtree, FoldRows, Gathered, OutcomeOk;
    var j := k.round;
    CallParts(c, j);
    GatherDisjoint(c, j, r, k.pc, first);
    ChildSubtreeIs(c, j, r, first);
    if Alive(c, j, r, first) {
      FoldRowsUnion(Operator(c, j), RowsOf(c, j), c.size, Gathered(c, j, r, k.pc), ChildSubtree(c, j, r, first));
    }
  }

  /** What waits for a rank that is about to read a child. */
  lemma ReadMessage(c: Config, s: State, r: nat, first: bool, x: Channel)
    requires ConfigValid(c) && |s.ranks| == c.size && r < c.size && Ready(c, s, r)
    requires Root(c, s.ranks[r].round) < c.size && x.parent == r && x.first == first
    requires s.ranks[r].pc == if first then Entered else GotFirst
    ensures var j := s.ranks[r].round;
      if Alive(c, j, r, first) && x == Line(c, j, r, first)
      then 0 <= ChildIn(c, j, r, first) < c.size && UpWaiting(c, s, x) == [UpMessage(c, j, ChildIn(c, j, r, first))]
      else UpWaiting(c, s, x) == []
  {
    hide Alive, ChildIn, UpMessage;
  }

  /** Nothing waits for a rank that is ahead of everybody's sums. */
  lemma NothingYet(c: Config, s: State, x: Channel)
    requires ConfigValid(c) && |s.ranks| == c.size && 0 <= x.parent < c.size
    requires forall q :: 0 <= q < c.size ==> SentUpRounds(s.ranks[q]) <= ReadFrom(s.ranks[x.parent], x.first)
    ensures UpWaiting(c, s, x) == []
  {
    hide Alive, ChildIn, UpMessage;
  }

  lemma ReadKeeps(c: Config, s: State, r: nat, first: bool, pc: Pc)
    requires ConfigValid(c) && Inv(c, s) && Enabled(c, s, r) && Ready(c, s, r)
    requires (s.ranks[r].pc == Entered && first && pc == GotFirst) || (s.ranks[r].pc == GotFirst && !first && pc == GotSecond)
    requires Root(c, s.ranks[r].round) < c.size
    ensures Inv(c, ReadChild(c, s, r, first, pc))
  {
    hide Alive, ChildIn, ParentIn, LeftIn, OrderOk, UpWaiting, DownWaiting, RankOk, UpMessage, Ready;
    var s' := ReadChild(c, s, r, first, pc);
    var k, j := s.ranks[r], s.ranks[r].round;
    var key := Line(c, j, r, first);
    Family(c, j, r, first);
    ReadMessage(c, s, r, first, key);
    assert Queue(s.up, key) == UpWaiting(c, s, key);
    GatheredRank(c, k, r, first, pc, if Alive(c, j, r, first) then Queue(s.up, key)[0] else UpPacket(0, []));
    ReadOrder(c, s, s', r, first);
    forall x: Channel | 0 <= x.parent < c.size
      ensures Queue(s'.up, x) == UpWaiting(c, s', x) && Queue(s'.down, x) == DownWaiting(c, s', x)
    {
      DownKept(c, s, s', r, x);
      if x.parent == r && x.first == first {
        forall q | 0 <= q < c.size ensures SentUpRounds(s'.ranks[q]) <= j + 1 { InStep(c, s, q, r); }
        NothingYet(c, s', x);
        ReadMessage(c, s, r, first, x);
      } else {
        UpKept(c, s, s', r, x);
      }
    }
    InvKept(c, s, s', r);
  }

  lemma ReadOrder(c: Config, s: State, s': State, r: nat, first: bool)
    requires ConfigValid(c) && Inv(c, s) && OnlyRank(c, s, s', r) && Ready(c, s, r)
    requires s.ranks[r].pc == if first then Entered else GotFirst
    requires s'.ranks[r].round == s.ranks[r].round && s'.ranks[r].pc == if first then GotFirst else GotSecond
    ensures forall i: nat, q :: 0 <= q < c.size ==> OrderOk(c, s', i, q)
  {
    hide Alive, ChildIn, ParentIn, LeftIn, OrderOk, RankOk, ChannelsOk;
    forall i: nat, q | 0 <= q < c.size ensures OrderOk(c, s', i, q) {
      CallParts(c, i);
      assert OrderOk(c, s, i, q);
      if q != Root(c, i) { FamilyUp(c, i, q); }
      OrderKept(c, s, s', r, i, q);
    }
  }

  // ----- sending the sum

  lemma SumSent(c: Config, k: Rank, r: nat)
    requires ConfigValid(c) && r < c.size && RankOk(c, k, r) && k.pc == GotSecond
    ensures RankOk(c, k.(pc := SentUp), r) && UpPacket(k.sum, k.acc) == UpMessage(c, k.round, r)
  {
    hide OutcomeOk, Gathered, FoldIn, SubtreeIn;
    CallParts(c, k.round);
    GatheredAll(c, k.round, r, GotSecond);
    GatheredAll(c, k.round, r, SentUp);
  }

  lemma SendUpKeeps(c: Config, s: State, r: nat)
    requires ConfigValid(c) && Inv(c, s) && Enabled(c, s, r) && s.ranks[r].pc == GotSecond
    ensures Inv(c, Step(c, s, r))
  {
    hide Alive, ChildIn, ParentIn, LeftIn, OrderOk, UpWaiting, DownWaiting, RankOk, UpMessage;
    var s' := Step(c, s, r);
    var k, j := s.ranks[r], s.ranks[r].round;
    CallParts(c, j);
    SumSent(c, k, r);
    forall i: nat, q | 0 <= q < c.size ensures OrderOk(c, s', i, q) {
      CallParts(c, i);
      assert OrderOk(c, s, i, q);
      OrderKept(c, s, s', r, i, q);
    }
    forall x: Channel | 0 <= x.parent < c.size
      ensures Queue(s'.up, x) == UpWaiting(c, s', x) && Queue(s'.down, x) == DownWaiting(c, s', x)
    {
      DownKept(c, s, s', r, x);
      SumWaits(c, s, s', r, x);
    }
    InvKept(c, s, s', r);
  }

  /** The sum goes to the parent of the call, which reads this call next; no other channel changes. */
  lemma SumWaits(c: Config, s: State, s': State, r: nat, x: Channel)
    requires ConfigValid(c) && Inv(c, s) && OnlyRank(c, s, s', r) && 0 <= x.parent < c.size
    requires s.ranks[r].pc == GotSecond && s'.ranks[r].pc == SentUp && s'.ranks[r].round == s.ranks[r].round
    requires Root(c, s.ranks[r].round) < c.size
    ensures var j := s.ranks[r].round;
      if r != Root(c, j) && x == Line(c, j, ParentIn(c, j, r), LeftIn(c, j, r))
      then UpWaiting(c, s, x) == [] && UpWaiting(c, s', x) == [UpMessage(c, j, r)]
      else UpWaiting(c, s', x) == UpWaiting(c, s, x)
  {
    hide Alive, ChildIn, ParentIn, LeftIn, OrderOk, ChannelsOk, RankOk, UpMessage;
    var j := s.ranks[r].round;
    var i := ReadFrom(s.ranks[x.parent], x.first);
    CallParts(c, i);
    Family(c, i, x.parent, x.first);
    InStep(c, s, r, x.parent);
    if r != Root(c, j) {
      FamilyUp(c, j, r);
      if x == Line(c, j, ParentIn(c, j, r), LeftIn(c, j, r)) {
        SenderNext(c, s, r);
      }
    }
  }

  lemma SenderNext(c: Config, s: State, r: nat)
    requires ConfigValid(c) && Inv(c, s) && r < c.size && s.ranks[r].pc == GotSecond
    requires Root(c, s.ranks[r].round) < c.size && r != Root(c, s.ranks[r].round)
    ensures var j := s.ranks[r].round;
      var p := ParentIn(c, j, r);
      0 <= p < c.size && ReadFrom(s.ranks[p], LeftIn(c, j, r)) == j
  {
    hide ParentIn, LeftIn, RankOk, ChannelsOk;
    var j := s.ranks[r].round;
    assert OrderOk(c, s, j, r);
    InStep(c, s, r, ParentIn(c, j, r));
  }

  // ----- the verdict

  lemma WholeTree(c: Config, j: nat)
    requires ConfigValid(c) && Root(c, j) < c.size
    ensures SubtreeIn(c, j, Root(c, j)) == AllRanks(c.size)
    ensures |SubtreeIn(c, j, Root(c, j))| == c.size
  {
    hide Subtree;
    SubtreeSplit(Root(c, j), Root(c, j), c.size);
    AllRanksSize(c.size);
  }

  function AllRanks(n: nat): set<nat> { if n == 0 then {} else AllRanks(n - 1) + {n - 1} }

  lemma {:induction false} AllRanksSize(n: nat)
    ensures |AllRanks(n)| == n && forall q: nat :: q in AllRanks(n) <==> q < n
  {
    if n > 0 { AllRanksSize(n - 1); }
  }

  lemma VerdictRank(c: Config, k: Rank, r: nat, p: DownPacket)
    requires ConfigValid(c) && r < c.size && RankOk(c, k, r) && k.pc == SentUp && Root(c, k.round) < c.size
    requires p == if r == Root(c, k.round) then DownPacket(k.sum == c.size, Payload(c, k.round)) else DownMessage(c, k.round)
    ensures RankOk(c, k.(pc := GotVerdict, ok := p.ok, received := p.data), r)
  {
    hide OutcomeOk, Gathered, FoldIn, SubtreeIn;
    CallParts(c, k.round);
    GatheredAll(c, k.round, r, SentUp);
    GatheredAll(c, k.round, r, GotVerdict);
    if r == Root(c, k.round) { WholeTree(c, k.round); }
  }

  /** What waits for a rank whose parent has sent the verdict of the rank's call. */
  lemma VerdictWaits(c: Config, s: State, r: nat, x: Channel)
    requires ConfigValid(c) && Inv(c, s) && r < c.size && Ready(c, s, r) && s.ranks[r].pc == SentUp
    requires Root(c, s.ranks[r].round) < c.size && r != Root(c, s.ranks[r].round)
    requires x.parent == ParentIn(c, s.ranks[r].round, r) && x.first == LeftIn(c, s.ranks[r].round, r)
    ensures 0 <= x.parent < c.size && ToldRounds(s.ranks[x.parent], x.first) == s.ranks[r].round + 1
    ensures DownWaiting(c, s, x) ==
      if x == Line(c, s.ranks[r].round, x.parent, x.first) then [DownMessage(c, s.ranks[r].round)] else []
  {
    hide Alive, ChildIn, ParentIn, LeftIn, OrderOk, ChannelsOk, RankOk;
    var j := s.ranks[r].round;
    FamilyUp(c, j, r);
    InStep(c, s, ParentIn(c, j, r), r);
  }

  lemma VerdictKeeps(c: Config, s: State, r: nat)
    requires ConfigValid(c) && Inv(c, s) && Enabled(c, s, r) && Ready(c, s, r) && s.ranks[r].pc == SentUp
    ensures Inv(c, Step(c, s, r))
  {
    hide Alive, ChildIn, ParentIn, LeftIn, OrderOk, UpWaiting, DownWaiting, RankOk;
    var s' := Step(c, s, r);
    var k, j := s.ranks[r], s.ranks[r].round;
    CallParts(c, j);
    if r != Root(c, j) {
      var key := Line(c, j, ParentIn(c, j, r), LeftIn(c, j, r));
      VerdictWaits(c, s, r, key);
      assert Queue(s.down, key) == DownWaiting(c, s, key);
    }
    VerdictRank(c, k, r, DownPacket(s'.ranks[r].ok, s'.ranks[r].received));
    forall i: nat, q | 0 <= q < c.size ensures OrderOk(c, s', i, q) {
      CallParts(c, i);
      assert OrderOk(c, s, i, q);
      OrderKept(c, s, s', r, i, q);
    }
    forall x: Channel | 0 <= x.parent < c.size
      ensures Queue(s'.up, x) == UpWaiting(c, s', x) && Queue(s'.down, x) == DownWaiting(c, s', x)
    {
      UpKept(c, s, s', r, x);
      VerdictRead(c, s, s', r, x);
    }
    InvKept(c, s, s', r);
  }

  lemma VerdictRead(c: Config, s: State, s': State, r: nat, x: Channel)
    requires ConfigValid(c) && Inv(c, s) && OnlyRank(c, s, s', r) && Ready(c, s, r) && 0 <= x.parent < c.size
    requires s.ranks[r].pc == SentUp && s'.ranks[r].pc == GotVerdict && s'.ranks[r].round == s.ranks[r].round
    requires Root(c, s.ranks[r].round) < c.size
    ensures var j := s.ranks[r].round;
      if r != Root(c, j) && x == Line(c, j, ParentIn(c, j, r), LeftIn(c, j, r))
      then DownWaiting(c, s', x) == []
      else DownWaiting(c, s', x) == DownWaiting(c, s, x)
  {
    hide Alive, ChildIn, ParentIn, LeftIn, OrderOk, ChannelsOk, RankOk, DownMessage;
    var j := s.ranks[r].round;
    var told := ToldRounds(s.ranks[x.parent], x.first);
    if told > 0 {
      CallParts(c, told - 1);
      Family(c, told - 1, x.parent, x.first);
    }
    if r != Root(c, j) {
      FamilyUp(c, j, r);
      if x == Line(c, j, ParentIn(c, j, r), LeftIn(c, j, r)) { VerdictWaits(c, s, r, x); }
    }
  }

  // ----- telling the children

  lemma ToldRank(c: Config, k: Rank, r: nat)
    requires ConfigValid(c) && r < c.size && RankOk(c, k, r) && Number(k.pc) >= 5
    ensures k.pc == GotVerdict ==> RankOk(c, k.(pc := SentFirst), r)
    ensures k.pc == SentFirst ==> RankOk(c, Return(k), r)
    ensures DownPacket(k.ok, k.received) == DownMessage(c, k.round)
  {
    hide Gathered, FoldIn, SubtreeIn;
    CallParts(c, k.round);
    GatheredAll(c, k.round, r, k.pc);
    GatheredAll(c, k.round, r, SentFirst);
  }

  lemma TellKeeps(c: Config, s: State, r: nat, first: bool)
    requires ConfigValid(c) && Inv(c, s) && Enabled(c, s, r) && s.ranks[r].pc == if first then GotVerdict else SentFirst
    ensures Inv(c, Step(c, s, r))
  {
    hide Alive, ChildIn, ParentIn, LeftIn, OrderOk, UpWaiting, DownWaiting, RankOk, DownMessage;
    var s' := Step(c, s, r);
    var k, j := s.ranks[r], s.ranks[r].round;
    CallParts(c, j);
    ToldRank(c, k, r);
    forall i: nat, q | 0 <= q < c.size ensures OrderOk(c, s', i, q) {
      CallParts(c, i);
      assert OrderOk(c, s, i, q);
      OrderKept(c, s, s', r, i, q);
    }
    forall x: Channel | 0 <= x.parent < c.size
      ensures Queue(s'.up, x) == UpWaiting(c, s', x) && Queue(s'.down, x) == DownWaiting(c, s', x)
    {
      UpKept(c, s, s', r, x);
      if x.parent == r && x.first == first {
        TellWaits(c, s, s', r, x);
      } else {
        DownKept(c, s, s', r, x);
      }
    }
    InvKept(c, s, s', r);
  }

  /** The verdict of the call before was read by then, and nobody has read this one. */
  lemma TellWaits(c: Config, s: State, s': State, r: nat, x: Channel)
    requires ConfigValid(c) && Inv(c, s) && OnlyRank(c, s, s', r) && x.parent == r
    requires s.ranks[r].pc == if x.first then GotVerdict else SentFirst
    requires ToldRounds(s'.ranks[r], x.first) == s.ranks[r].round + 1
    requires VerdictRounds(s'.ranks[r]) == VerdictRounds(s.ranks[r]) && Root(c, s.ranks[r].round) < c.size
    ensures DownWaiting(c, s, x) == []
    ensures var j := s.ranks[r].round;
      DownWaiting(c, s', x) == if Alive(c, j, r, x.first) && x == Line(c, j, r, x.first) then [DownMessage(c, j)] else []
  {
    hide Alive, ChildIn, ParentIn, LeftIn, ChannelsOk, RankOk, DownMessage;
    var j := s.ranks[r].round;
    if j > 0 {
      CallParts(c, j - 1);
      var q := ChildIn(c, j - 1, r, x.first);
      if 0 <= q < c.size { InStep(c, s, r, q); }
    }
    Family(c, j, r, x.first);
    var q := ChildIn(c, j, r, x.first);
    if 0 <= q < c.size { assert OrderOk(c, s, j, q); }
  }

  /** Every step of a rank that reads a message of its own call keeps the invariant. */
  lemma StepKeeps(c: Config, s: State, r: nat)
    requires ConfigValid(c) && Inv(c, s) && Enabled(c, s, r) && Ready(c, s, r)
    ensures Inv(c, Step(c, s, r))
  {
    hide Inv, Alive, Ready;
    CallParts(c, s.ranks[r].round);
    match s.ranks[r].pc
    case Outside => EnterKeeps(c, s, r);
    case Entered => ReadKeeps(c, s, r, true, GotFirst);
    case GotFirst => ReadKeeps(c, s, r, false, GotSecond);
    case GotSecond => SendUpKeeps(c, s, r);
    case SentUp => VerdictKeeps(c, s, r);
    case GotVerdict => TellKeeps(c, s, r, true);
    case SentFirst => TellKeeps(c, s, r, false);
  }
}
