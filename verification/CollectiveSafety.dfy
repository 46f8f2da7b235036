/** What any sequence of collective calls whose neighbouring roots go together guarantees in
    every interleaving: every call is a synchronisation point and returns what it promises. */
module CollectiveSafety {
  import opened CollectiveTree
  import opened CollectiveRoots
  import opened Collectives
  import opened CollectiveRuns
  import opened CollectiveSteps
  import opened Prelude

  /** Call j + 1 may follow call j: it has other channels, or its root goes with the one before. */
  ghost predicate Follows(c: Config, j: nat)
    requires ConfigValid(c)
  {
    CallParts(c, j);
    CallParts(c, j + 1);
    c.calls(j).Barrier? != c.calls(j + 1).Barrier? || RootsSafe(Root(c, j), Root(c, j + 1), c.size)
  }

  ghost predicate RootsFollow(c: Config)
    requires ConfigValid(c)
  {
    forall j: nat :: Follows(c, j)
  }

  /** No rank has returned from a call that some rank has not entered. */
  ghost predicate Together(c: Config, s: State) {
    forall r, q :: 0 <= r < |s.ranks| && 0 <= q < |s.ranks| ==> |s.ranks[r].outcomes| <= EnteredRounds(s.ranks[q])
  }

  /** Every call returned success with the data the root gave, and at the root of a reduce,
      byte by byte, the sum, product, greatest or smallest of the data of all ranks. */
  ghost predicate Succeeded(c: Config, s: State)
    requires ConfigValid(c)
  {
    forall r, j :: 0 <= r < |s.ranks| && 0 <= j < |s.ranks[r].outcomes| ==> Result(c, j, r, s.ranks[r].outcomes[j])
  }

  ghost predicate Result(c: Config, j: nat, r: nat, o: Outcome)
    requires ConfigValid(c)
  {
    assert CallValid(c.calls(j), c.size);
    && o.ok
    && match c.calls(j)
       case Barrier => o.received == []
       case Bcast(_, data) => o.received == data
       case Reduce(root, op, rows) =>
         && o.received == []
         && (r == root ==>
               && |o.reduced| == |rows[0]|
               && forall i :: 0 <= i < |rows[0]| ==> IsResult(op, Column(rows, c.size, i), o.reduced[i]))
  }

  // ----- with roots that go together

  /** A rank that waits for a verdict and finds one on its channel finds its own. */
  lemma VerdictIsOwn(c: Config, s: State, r: nat)
    requires ConfigValid(c) && RootsFollow(c) && Inv(c, s) && Enabled(c, s, r) && s.ranks[r].pc == SentUp
    ensures Ready(c, s, r)
  {
    hide Alive, ChildIn, ParentIn, LeftIn, ChannelsOk, RankOk, OrderOk, Meet, RootsSafe;
    var j := s.ranks[r].round;
    CallParts(c, j);
    if r != Root(c, j) {
      FamilyUp(c, j, r);
      var key := Line(c, j, ParentIn(c, j, r), LeftIn(c, j, r));
      DownIs(c, s, key);
      var told := ToldRounds(s.ranks[key.parent], key.first);
      if told <= j {
        CallParts(c, told - 1);
        var q := ChildIn(c, told - 1, key.parent, key.first);
        InStep(c, s, r, q);
        assert told == j && Follows(c, j - 1);
        NotOvertaken(c, s, j - 1, key.parent, key.first, q, r);
      }
    }
  }

  lemma DownIs(c: Config, s: State, key: Channel)
    requires ConfigValid(c) && Inv(c, s) && 0 <= key.parent < c.size
    ensures Queue(s.down, key) == DownWaiting(c, s, key) && Queue(s.up, key) == UpWaiting(c, s, key)
  {
  }

  /** The rank below both children lets the one pass only after the other. */
  lemma NotOvertaken(c: Config, s: State, j: nat, p: nat, first: bool, q: nat, r: nat)
    requires ConfigValid(c) && Inv(c, s) && p < c.size && q < c.size && r < c.size
    requires Root(c, j) < c.size && Root(c, j + 1) < c.size && RootsSafe(Root(c, j), Root(c, j + 1), c.size)
    requires Alive(c, j, p, first) && ChildIn(c, j, p, first) == q
    requires Alive(c, j + 1, p, first) && ChildIn(c, j + 1, p, first) == r
    requires SentUpRounds(s.ranks[r]) > j + 1
    ensures VerdictRounds(s.ranks[q]) > j
  {
    hide RootsSafe, ChannelsOk, RankOk, OrderOk, Under, ChildAlive, Child;
    var a, b := Root(c, j), Root(c, j + 1);
    RootsSafeMeans(a, b, c.size);
    assert Meet(p, first, a, b, c.size);
    var x: nat :| x < c.size && Below(x, q, a, c.size) && Below(x, r, b, c.size);
    Chain(c, s, j + 1, x, r);
    Chain(c, s, j, x, q);
  }

  lemma EnabledReady(c: Config, s: State, r: nat)
    requires ConfigValid(c) && RootsFollow(c) && Inv(c, s) && Enabled(c, s, r)
    ensures Ready(c, s, r)
  {
    hide Alive, ChildIn, ParentIn, LeftIn, ChannelsOk, RankOk, OrderOk, RootsFollow;
    var j := s.ranks[r].round;
    CallParts(c, j);
    match s.ranks[r].pc
    case Entered => DownIs(c, s, Line(c, j, r, true));
    case GotFirst => DownIs(c, s, Line(c, j, r, false));
    case SentUp => VerdictIsOwn(c, s, r);
    case _ =>
  }

  lemma InitialInv(c: Config, s: State)
    requires ConfigValid(c) && Initial(c, s)
    ensures Inv(c, s)
  {
    hide Alive, ChildIn, ParentIn, LeftIn;
    forall i: nat, r | 0 <= r < c.size ensures OrderOk(c, s, i, r) {
      CallParts(c, i);
      if r != Root(c, i) { FamilyUp(c, i, r); }
    }
    forall key: Channel | 0 <= key.parent < c.size
      ensures Queue(s.up, key) == UpWaiting(c, s, key) && Queue(s.down, key) == DownWaiting(c, s, key)
    {
    }
  }

  lemma {:induction false} RunInv(c: Config, states: seq<State>, schedule: seq<nat>, n: nat)
    requires ConfigValid(c) && RootsFollow(c) && Run(c, states, schedule) && n < |states|
    ensures Inv(c, states[n])
  {
    hide Inv, Initial, Enabled, Step, RootsFollow;
    if n == 0 {
      InitialInv(c, states[0]);
    } else {
      RunInv(c, states, schedule, n - 1);
      assert states[n - 1 + 1] == Step(c, states[n - 1], schedule[n - 1]);
      EnabledReady(c, states[n - 1], schedule[n - 1]);
      StepKeeps(c, states[n - 1], schedule[n - 1]);
    }
  }

  lemma InvTogether(c: Config, s: State)
    requires ConfigValid(c) && Inv(c, s)
    ensures Together(c, s)
  {
    hide OrderOk, ChannelsOk, OutcomeOk;
    forall r, q | 0 <= r < c.size && 0 <= q < c.size ensures |s.ranks[r].outcomes| <= EnteredRounds(s.ranks[q])
    {
      assert RankOk(c, s.ranks[r], r);
      InStep(c, s, r, q);
    }
  }

  lemma InvSucceeded(c: Config, s: State)
    requires ConfigValid(c) && Inv(c, s)
    ensures Succeeded(c, s)
  {
    hide OrderOk, ChannelsOk, OutcomeOk, Result;
    forall r, j | 0 <= r < c.size && 0 <= j < |s.ranks[r].outcomes| ensures Result(c, j, r, s.ranks[r].outcomes[j]) {
      assert RankOk(c, s.ranks[r], r);
      OutcomeResult(c, j, r, s.ranks[r].outcomes[j]);
    }
  }

  lemma OutcomeResult(c: Config, j: nat, r: nat, o: Outcome)
    requires ConfigValid(c) && r < c.size && OutcomeOk(c, j, r, o)
    ensures Result(c, j, r, o)
  {
    hide SubtreeIn, AllRanks;
    CallParts(c, j);
    if r == Root(c, j) {
      WholeTree(c, j);
      AllRanksSize(c.size);
      forall i | 0 <= i < |RowsOf(c, j)[0]|
        ensures IsResult(Operator(c, j), Column(RowsOf(c, j), c.size, i), o.reduced[i])
      {
        var column := Column(RowsOf(c, j), c.size, i);
        FoldAll(Operator(c, j), column, c.size, AllRanks(c.size));
        assert column[..c.size] == column;
      }
    }
  }

  /** In every interleaving: no rank has returned from its k-th call before every rank has
      entered its own k-th call. */
  lemma BarrierSafety(c: Config, states: seq<State>, schedule: seq<nat>, n: nat)
    requires ConfigValid(c) && RootsFollow(c) && Run(c, states, schedule) && n < |states|
    ensures Together(c, states[n])
  {
    hide Run, Inv, RootsFollow;
    RunInv(c, states, schedule, n);
    InvTogether(c, states[n]);
  }

  /** In every interleaving every call returns the root's verdict, which is success, with the
      root's data; and at the root of a reduce the fold of all ranks' data in rank order. */
  lemma EveryCallSucceeds(c: Config, states: seq<State>, schedule: seq<nat>, n: nat)
    requires ConfigValid(c) && RootsFollow(c) && Run(c, states, schedule) && n < |states|
    ensures Succeeded(c, states[n])
  {
    hide Run, Inv, RootsFollow;
    RunInv(c, states, schedule, n);
    InvSucceeded(c, states[n]);
  }

  // ----- sequences of calls that go together

  /** Barriers only: nothing is asked of the roots. */
  lemma BarriersFollow(c: Config)
    requires ConfigValid(c) && forall j :: c.calls(j).Barrier?
    ensures RootsFollow(c)
  {
  }

  /** The same root every time. */
  lemma SameRootFollows(c: Config, root: nat)
    requires ConfigValid(c) && forall j :: Root(c, j) == root
    ensures RootsFollow(c)
  {
    CallParts(c, 0);
    assert root < c.size;
  }

  /** A barrier between any two other calls, whatever their roots. */
  lemma BarrierBetweenFollows(c: Config)
    requires ConfigValid(c) && forall j: nat :: c.calls(j).Barrier? || c.calls(j + 1).Barrier?
    ensures RootsFollow(c)
  {
    forall j: nat ensures Follows(c, j) {
      if c.calls(j).Barrier? && c.calls(j + 1).Barrier? { assert Distance(0, 0, c.size) == 0; }
    }
  }
}
