/** How far the ranks can always get, and what happens when the roots of two neighbouring calls
    do not go together: then, and only then, a rank can take the verdict of the call before and
    return from a call that others have not entered. */
module CollectiveProgress {
  import opened CollectiveTree
  import opened CollectiveRoots
  import opened CollectiveRuns
  import opened CollectiveSteps
  import opened CollectiveSafety
  import opened Prelude

  // ----- how far ranks can get without taking a message of another call

  /** The number of steps a rank has taken. */
  function Level(k: Rank): nat { 7 * k.round + Number(k.pc) }

  /** How far each rank is to go. Nobody stops where somebody else has to get a message from it. */
  ghost predicate Feasible(c: Config, goal: seq<nat>)
    requires ConfigValid(c)
  {
    && |goal| == c.size
    && forall j: nat, r :: 0 <= r < c.size ==> FeasibleFor(c, goal, j, r)
  }

  ghost predicate FeasibleFor(c: Config, goal: seq<nat>, j: nat, r: nat)
    requires ConfigValid(c) && |goal| == c.size && r < c.size
  {
    CallParts(c, j);
    && (goal[r] > 7 * j + 1 && Alive(c, j, r, true) ==> SendsUp(c, goal, j, ChildIn(c, j, r, true)))
    && (goal[r] > 7 * j + 2 && Alive(c, j, r, false) ==> SendsUp(c, goal, j, ChildIn(c, j, r, false)))
    && (goal[r] > 7 * j + 4 && r != Root(c, j) ==>
          var p := ParentIn(c, j, r);
          0 <= p < c.size && goal[p] >= 7 * j + if LeftIn(c, j, r) then 6 else 7)
  }

  predicate SendsUp(c: Config, goal: seq<nat>, j: nat, q: int) {
    0 <= q < |goal| && goal[q] >= 7 * j + 4
  }

  function Phase(k: Rank): nat { if k.pc == SentUp then 1 else 0 }

  function Depth(c: Config, k: Rank, r: nat): nat
    requires r < c.size && Root(c, k.round) < c.size
  {
    var v := Place(r, Root(c, k.round), c.size);
    if Number(k.pc) <= 3 then c.size - v else v
  }

  /** As long as some rank is not where it is to go, some such rank can take a step. */
  lemma {:induction false} SomeStep(c: Config, s: State, goal: seq<nat>, r: nat) returns (q: nat)
    requires ConfigValid(c) && Inv(c, s) && Feasible(c, goal) && r < c.size && Level(s.ranks[r]) < goal[r]
    ensures q < c.size && Level(s.ranks[q]) < goal[q] && Ready(c, s, q)
    decreases s.ranks[r].round, Phase(s.ranks[r]), (CallParts(c, s.ranks[r].round); Depth(c, s.ranks[r], r))
  {
    hide Alive, ChildIn, ParentIn, LeftIn, RankOk, OrderOk, ChannelsOk;
    var k, j := s.ranks[r], s.ranks[r].round;
    CallParts(c, j);
    q := r;
    if !Ready(c, s, r) {
      assert FeasibleFor(c, goal, j, r);
      if k.pc == SentUp {
        FamilyUp(c, j, r);
        ParentPlace(c, j, r);
        q := SomeStep(c, s, goal, ParentIn(c, j, r));
      } else {
        var first := k.pc == Entered;
        Family(c, j, r, first);
        ParentPlace(c, j, ChildIn(c, j, r, first));
        q := SomeStep(c, s, goal, ChildIn(c, j, r, first));
      }
    }
  }

  lemma ParentPlace(c: Config, j: nat, r: nat)
    requires ConfigValid(c) && Root(c, j) < c.size && r < c.size && r != Root(c, j)
    ensures var p := ParentIn(c, j, r);
      0 <= p < c.size && Place(p, Root(c, j), c.size) < Place(r, Root(c, j), c.size)
  {
    ParentFormulas(r, Root(c, j), c.size);
    PlaceRank(Root(c, j), c.size);
    FamilyAgrees(r, Root(c, j), c.size);
  }

  /** All ranks can be asked to get through the first m calls. */
  lemma AllFeasible(c: Config, m: nat)
    requires ConfigValid(c)
    ensures Feasible(c, seq(c.size, i => 7 * m))
  {
    hide Alive, ChildIn, ParentIn, LeftIn;
    var goal := seq(c.size, i => 7 * m);
    forall i: nat, x | 0 <= x < c.size ensures FeasibleFor(c, goal, i, x) {
      CallParts(c, i);
      Family(c, i, x, true);
      Family(c, i, x, false);
      if x != Root(c, i) { FamilyUp(c, i, x); }
    }
  }

  /** Once every rank has entered call j, the call never gets stuck: as long as one rank has not
      returned from it, some rank in it can take a step. */
  lemma NeverStuck(c: Config, s: State, j: nat, r: nat) returns (q: nat)
    requires ConfigValid(c) && Inv(c, s) && r < c.size
    requires forall x :: 0 <= x < c.size ==> EnteredRounds(s.ranks[x]) > j
    requires s.ranks[r].round == j
    ensures q < c.size && s.ranks[q].round == j && Enabled(c, s, q)
  {
    hide Alive, ChildIn, ParentIn, LeftIn, RankOk, OrderOk, ChannelsOk, Ready;
    var goal := seq(c.size, i => 7 * (j + 1));
    AllFeasible(c, j + 1);
    q := SomeStep(c, s, goal, r);
    ReadyEnabled(c, s, q);
  }

  lemma ReadyEnabled(c: Config, s: State, r: nat)
    requires ConfigValid(c) && Inv(c, s) && r < c.size && Ready(c, s, r)
    ensures Enabled(c, s, r)
  {
    hide Alive, ChildIn, ParentIn, LeftIn, RankOk, OrderOk, ChannelsOk, Ready;
    var k, j := s.ranks[r], s.ranks[r].round;
    CallParts(c, j);
    if k.pc == SentUp && r != Root(c, j) {
      var key := Line(c, j, ParentIn(c, j, r), LeftIn(c, j, r));
      VerdictWaits(c, s, r, key);
      DownIs(c, s, key);
    } else if k.pc == Entered || k.pc == GotFirst {
      var key := Line(c, j, r, k.pc == Entered);
      ReadMessage(c, s, r, k.pc == Entered, key);
      DownIs(c, s, key);
    }
  }

  // ----- reaching a goal

  function Missing(goal: seq<nat>, ranks: seq<Rank>, n: nat): nat
    requires n <= |goal| == |ranks|
    requires forall r :: 0 <= r < |ranks| ==> Level(ranks[r]) <= goal[r]
  {
    if n == 0 then 0 else Missing(goal, ranks, n - 1) + goal[n - 1] - Level(ranks[n - 1])
  }

  lemma {:induction false} MissingLess(goal: seq<nat>, ranks: seq<Rank>, q: nat, k: Rank, n: nat)
    requires n <= |goal| == |ranks| && q < |ranks| && Level(k) == Level(ranks[q]) + 1 <= goal[q]
    requires forall r :: 0 <= r < |ranks| ==> Level(ranks[r]) <= goal[r]
    ensures Missing(goal, ranks[q := k], n) + (if q < n then 1 else 0) == Missing(goal, ranks, n)
  {
    if n > 0 { MissingLess(goal, ranks, q, k, n - 1); }
  }

  ghost predicate Within(c: Config, s: State, goal: seq<nat>) {
    |s.ranks| == |goal| == c.size && forall r :: 0 <= r < c.size ==> Level(s.ranks[r]) <= goal[r]
  }

  ghost predicate Arrived(c: Config, s: State, goal: seq<nat>) {
    |s.ranks| == |goal| == c.size && forall r :: 0 <= r < c.size ==> Level(s.ranks[r]) == goal[r]
  }

  /** A step takes one rank one step further. */
  lemma StepLevel(c: Config, s: State, q: nat)
    requires ConfigValid(c) && Enabled(c, s, q)
    ensures var s' := Step(c, s, q);
      && OnlyRank(c, s, s', q) && s'.ranks == s.ranks[q := s'.ranks[q]]
      && Level(s'.ranks[q]) == Level(s.ranks[q]) + 1
  {
    hide Alive, ChildIn, ParentIn, LeftIn;
  }

  lemma RunSnoc(c: Config, states: seq<State>, schedule: seq<nat>, q: nat)
    requires ConfigValid(c) && |states| == |schedule| + 1 && Run(c, states, schedule)
    requires Enabled(c, states[|schedule|], q)
    ensures Run(c, states + [Step(c, states[|schedule|], q)], schedule + [q])
  {
    hide Enabled, Step, Initial;
    var states', schedule' := states + [Step(c, states[|schedule|], q)], schedule + [q];
    forall i | 0 <= i < |schedule'|
      ensures Enabled(c, states'[i], schedule'[i]) && states'[i + 1] == Step(c, states'[i], schedule'[i])
    {
      if i < |schedule| { assert states[i + 1] == Step(c, states[i], schedule[i]); }
    }
  }

  /** Every run can be continued to any feasible goal. */
  lemma {:induction false} Reach(c: Config, states: seq<State>, schedule: seq<nat>, goal: seq<nat>)
    returns (states': seq<State>, schedule': seq<nat>)
    requires ConfigValid(c) && |states| == |schedule| + 1 && Run(c, states, schedule) && Feasible(c, goal)
    requires Inv(c, states[|schedule|]) && Within(c, states[|schedule|], goal)
    ensures |states'| == |schedule'| + 1 && Run(c, states', schedule') && states <= states'
    ensures Inv(c, states'[|schedule'|]) && Arrived(c, states'[|schedule'|], goal)
    decreases Missing(goal, states[|schedule|].ranks, c.size)
  {
    hide Feasible, Enabled, Step, Run, Inv, Level, Ready;
    var s := states[|schedule|];
    if Arrived(c, s, goal) {
      states', schedule' := states, schedule;
    } else {
      var r: nat :| r < c.size && Level(s.ranks[r]) < goal[r];
      InvSize(c, s);
      var q := SomeStep(c, s, goal, r);
      ReadyEnabled(c, s, q);
      StepKeeps(c, s, q);
      StepLevel(c, s, q);
      MissingLess(goal, s.ranks, q, Step(c, s, q).ranks[q], c.size);
      RunSnoc(c, states, schedule, q);
      states', schedule' := Reach(c, states + [Step(c, s, q)], schedule + [q], goal);
    }
  }

  lemma InvSize(c: Config, s: State)
    requires ConfigValid(c) && Inv(c, s)
    ensures |s.ranks| == c.size
  {
  }

  // ----- with roots that do not go together

  /** Ranks below the overtaken rank wait in call j, those below the overtaker have sent their
      sums in call j + 1, everybody else has returned from call j. */
  ghost function Standstill(c: Config, j: nat, q: nat, r: nat): (goal: seq<nat>)
    requires Root(c, j) < c.size && Root(c, j + 1) < c.size && q < c.size && r < c.size
    ensures |goal| == c.size
  {
    seq(c.size, x requires 0 <= x < c.size =>
      if x in SubtreeIn(c, j + 1, r) then 7 * j + 11 else if x in SubtreeIn(c, j, q) then 7 * j + 4 else 7 * j + 7)
  }

  lemma StandstillFeasible(c: Config, j: nat, q: nat, r: nat)
    requires ConfigValid(c) && Root(c, j) < c.size && Root(c, j + 1) < c.size && q < c.size && r < c.size
    requires SubtreeIn(c, j, q) !! SubtreeIn(c, j + 1, r)
    ensures Feasible(c, Standstill(c, j, q, r))
  {
    hide Alive, ChildIn, ParentIn, LeftIn, SubtreeIn;
    var goal := Standstill(c, j, q, r);
    forall i: nat, x | 0 <= x < c.size ensures FeasibleFor(c, goal, i, x) {
      CallParts(c, i);
      Family(c, i, x, true);
      Family(c, i, x, false);
      if i == j + 1 {
        BelowChild(c, i, x, true, r);
        BelowChild(c, i, x, false, r);
      }
      if x != Root(c, i) {
        FamilyUp(c, i, x);
        if i == j { BelowParent(c, i, x, q); }
      }
    }
  }

  lemma BelowParent(c: Config, j: nat, x: nat, y: nat)
    requires ConfigValid(c) && Root(c, j) < c.size && x < c.size && y < c.size && x != Root(c, j)
    ensures 0 <= ParentIn(c, j, x) < c.size && (ParentIn(c, j, x) in SubtreeIn(c, j, y) ==> x in SubtreeIn(c, j, y))
  {
    hide Root, Place, RankAt, Parent, LeftChild, Child1, Child2, Child1Alive, Child2Alive, Under;
    PlaceOfParent(c, j, x);
    UnderParent(Place(x, Root(c, j), c.size), Place(y, Root(c, j), c.size));
  }

  lemma BelowChild(c: Config, j: nat, x: nat, first: bool, y: nat)
    requires ConfigValid(c) && Root(c, j) < c.size && x < c.size && y < c.size
    ensures Alive(c, j, x, first) && x in SubtreeIn(c, j, y) ==>
      0 <= ChildIn(c, j, x, first) < c.size && ChildIn(c, j, x, first) in SubtreeIn(c, j, y)
  {
    hide Alive, ChildIn, ParentIn, LeftIn, SubtreeIn;
    Family(c, j, x, first);
    if Alive(c, j, x, first) { BelowParent(c, j, ChildIn(c, j, x, first), y); }
  }

  lemma Position(k: Rank, j: nat)
    ensures Level(k) == 7 * j + 4 ==> k.round == j && k.pc == SentUp
    ensures Level(k) == 7 * j + 7 ==> k.round == j + 1 && k.pc == Outside
    ensures Level(k) == 7 * j + 11 ==> k.round == j + 1 && k.pc == SentUp
  {
  }

  lemma StandsAt(c: Config, s: State, j: nat, q: nat, r: nat, x: nat)
    requires Root(c, j) < c.size && Root(c, j + 1) < c.size && q < c.size && r < c.size && x < c.size
    requires Arrived(c, s, Standstill(c, j, q, r))
    ensures Level(s.ranks[x]) ==
      if x in SubtreeIn(c, j + 1, r) then 7 * j + 11 else if x in SubtreeIn(c, j, q) then 7 * j + 4 else 7 * j + 7
  {
    hide SubtreeIn, Level;
  }

  lemma VerdictLeft(c: Config, s: State, j: nat, p: nat, first: bool, q: nat)
    requires ConfigValid(c) && Inv(c, s) && Root(c, j) < c.size && p < c.size && q < c.size
    requires Alive(c, j, p, first) && ChildIn(c, j, p, first) == q
    requires ToldRounds(s.ranks[p], first) == j + 1 && VerdictRounds(s.ranks[q]) == j
    ensures Queue(s.down, Line(c, j, p, first)) == [DownMessage(c, j)]
  {
    hide Inv, Alive, ChildIn, ToldRounds, VerdictRounds, Queue, DownMessage;
    InvSize(c, s);
    DownIs(c, s, Line(c, j, p, first));
  }

  /** At the standstill the verdict of call j for q is still on its channel, and r waits there. */
  lemma AtStandstill(c: Config, s: State, j: nat, p: nat, first: bool, q: nat, r: nat)
    requires ConfigValid(c) && Inv(c, s) && Root(c, j) < c.size && Root(c, j + 1) < c.size
    requires p < c.size && q < c.size && r < c.size && SubtreeIn(c, j, q) !! SubtreeIn(c, j + 1, r)
    requires Alive(c, j, p, first) && ChildIn(c, j, p, first) == q
    requires Arrived(c, s, Standstill(c, j, q, r))
    ensures |s.ranks| == c.size
    ensures s.ranks[r].round == j + 1 && s.ranks[r].pc == SentUp
    ensures s.ranks[q].round == j && s.ranks[q].pc == SentUp
    ensures Queue(s.down, Line(c, j, p, first)) == [DownMessage(c, j)]
  {
    hide Inv, Alive, ChildIn, ParentIn, LeftIn, SubtreeIn, Level, Arrived, Standstill, Queue, DownMessage;
    InvSize(c, s);
    OwnSubtree(c, j, q);
    OwnSubtree(c, j + 1, r);
    StandsAt(c, s, j, q, r, r);
    StandsAt(c, s, j, q, r, q);
    StandsAt(c, s, j, q, r, p);
    Position(s.ranks[r], j);
    Position(s.ranks[q], j);
    Family(c, j, p, first);
    NotBelowChild(c, j, q);
    Position(s.ranks[p], j);
    VerdictLeft(c, s, j, p, first, q);
  }

  lemma OwnSubtree(c: Config, j: nat, r: nat)
    requires ConfigValid(c) && Root(c, j) < c.size && r < c.size
    ensures r in SubtreeIn(c, j, r)
  {
  }

  lemma NotBelowChild(c: Config, j: nat, q: nat)
    requires ConfigValid(c) && Root(c, j) < c.size && q < c.size && q != Root(c, j)
    ensures 0 <= ParentIn(c, j, q) < c.size && ParentIn(c, j, q) !in SubtreeIn(c, j, q)
  {
    hide Parent;
    ParentPlace(c, j, q);
    NotUnder(Place(ParentIn(c, j, q), Root(c, j), c.size), Place(q, Root(c, j), c.size));
  }

  /** Three steps of a rank that finds the verdict of call j on the channel of call j + 1. */
  lemma TakesVerdict(c: Config, states: seq<State>, schedule: seq<nat>, j: nat, p: nat, first: bool, r: nat)
    returns (states': seq<State>, schedule': seq<nat>)
    requires ConfigValid(c) && |states| == |schedule| + 1 && Run(c, states, schedule) && Root(c, j + 1) < c.size
    requires var s := states[|schedule|];
      && r < |s.ranks| == c.size && p < c.size && Alive(c, j + 1, p, first) && ChildIn(c, j + 1, p, first) == r
      && s.ranks[r].round == j + 1 == |s.ranks[r].outcomes| && s.ranks[r].pc == SentUp
      && Queue(s.down, Line(c, j + 1, p, first)) == [DownMessage(c, j)]
    ensures |states'| == |schedule'| + 1 && Run(c, states', schedule')
    ensures var s, s' := states[|schedule|], states'[|schedule'|];
      && OnlyRank(c, s, s', r) && |s'.ranks[r].outcomes| == j + 2
      && s'.ranks[r].outcomes[j + 1].ok && s'.ranks[r].outcomes[j + 1].received == Payload(c, j)
  {
    hide Alive, ChildIn, ParentIn, LeftIn, Run, Initial;
    Family(c, j + 1, p, first);
    var s0 := states[|schedule|];
    var s1 := Step(c, s0, r);
    RunSnoc(c, states, schedule, r);
    var s2 := Step(c, s1, r);
    RunSnoc(c, states + [s1], schedule + [r], r);
    states', schedule' := states + [s1] + [s2], schedule + [r] + [r];
    RunSnoc(c, states', schedule', r);
    states', schedule' := states' + [Step(c, s2, r)], schedule' + [r];
  }

  /** A call that does not follow the one before: in some run a rank returns from it, with
      success and the data of the call before, while another rank has not entered it. */
  lemma Overtaken(c: Config, j: nat) returns (states: seq<State>, schedule: seq<nat>, r: nat, q: nat)
    requires ConfigValid(c) && !Follows(c, j)
    ensures |states| == |schedule| + 1 && Run(c, states, schedule)
    ensures var s := states[|schedule|];
      && r < |s.ranks| && q < |s.ranks| == c.size && EnteredRounds(s.ranks[q]) == j + 1
      && |s.ranks[r].outcomes| == j + 2
      && s.ranks[r].outcomes[j + 1].ok && s.ranks[r].outcomes[j + 1].received == Payload(c, j)
  {
    hide Alive, ChildIn, SubtreeIn, Standstill, Run, Inv, Feasible, Within, Arrived, Follows, DownMessage, Payload, Queue;
    CallParts(c, j);
    CallParts(c, j + 1);
    var p, first;
    p, first, q, r := Disagreement(c, j);
    StandstillFeasible(c, j, q, r);
    states, schedule := Start(c, Standstill(c, j, q, r));
    states, schedule := Reach(c, states, schedule, Standstill(c, j, q, r));
    AtStandstill(c, states[|schedule|], j, p, first, q, r);
    OutcomeCount(c, states[|schedule|], r);
    states, schedule := TakesVerdict(c, states, schedule, j, p, first, r);
  }

  /** A channel whose children in the two calls have no rank below both. */
  lemma Disagreement(c: Config, j: nat) returns (p: nat, first: bool, q: nat, r: nat)
    requires ConfigValid(c) && !Follows(c, j)
    ensures c.calls(j).Barrier? == c.calls(j + 1).Barrier? && Root(c, j) < c.size && Root(c, j + 1) < c.size
    ensures p < c.size && q < c.size && r < c.size && SubtreeIn(c, j, q) !! SubtreeIn(c, j + 1, r) && q != r
    ensures Alive(c, j, p, first) && ChildIn(c, j, p, first) == q
    ensures Alive(c, j + 1, p, first) && ChildIn(c, j + 1, p, first) == r
  {
    hide RootsSafe, Meet, ChildAlive, Child, SubtreeIn, Parent, LeftChild;
    CallParts(c, j);
    CallParts(c, j + 1);
    var a, b := Root(c, j), Root(c, j + 1);
    RootsSafeMeans(a, b, c.size);
    p, first :|
      p < c.size && ChildAlive(p, first, a, c.size) && ChildAlive(p, first, b, c.size) && !Meet(p, first, a, b, c.size);
    Family(c, j, p, first);
    Family(c, j + 1, p, first);
    q, r := ChildIn(c, j, p, first), ChildIn(c, j + 1, p, first);
    Apart(c, j, p, first, q, r);
    OwnSubtree(c, j, q);
    OwnSubtree(c, j + 1, r);
  }

  lemma SubtreeBelow(c: Config, j: nat, x: nat, y: nat)
    requires Root(c, j) < c.size && x < c.size && y < c.size
    ensures x in SubtreeIn(c, j, y) <==> Below(x, y, Root(c, j), c.size)
  {
  }

  lemma SubtreeRanks(c: Config, j: nat, y: nat)
    requires Root(c, j) < c.size && y < c.size
    ensures forall x :: x in SubtreeIn(c, j, y) ==> x < c.size
  {
  }

  lemma Apart(c: Config, j: nat, p: nat, first: bool, q: nat, r: nat)
    requires ConfigValid(c) && Root(c, j) < c.size && Root(c, j + 1) < c.size && p < c.size && q < c.size && r < c.size
    requires ChildIn(c, j, p, first) == q && ChildIn(c, j + 1, p, first) == r
    requires !Meet(p, first, Root(c, j), Root(c, j + 1), c.size)
    ensures SubtreeIn(c, j, q) !! SubtreeIn(c, j + 1, r)
  {
    hide Child, Under, SubtreeIn, Below;
    forall x: nat | x < c.size && x in SubtreeIn(c, j, q) ensures x !in SubtreeIn(c, j + 1, r) {
      SubtreeBelow(c, j, x, q);
      SubtreeBelow(c, j + 1, x, r);
    }
    SubtreeRanks(c, j, q);
  }

  lemma OutcomeCount(c: Config, s: State, r: nat)
    requires ConfigValid(c) && Inv(c, s) && r < c.size
    ensures |s.ranks| == c.size && |s.ranks[r].outcomes| == s.ranks[r].round
  {
    hide OutcomeOk, OrderOk, ChannelsOk;
    assert RankOk(c, s.ranks[r], r);
  }

  lemma RunOne(c: Config, s: State)
    requires ConfigValid(c) && Initial(c, s)
    ensures Run(c, [s], [])
  {
    hide Initial, Step, Enabled;
  }

  lemma NoLevel(c: Config, s: State, goal: seq<nat>)
    requires Initial(c, s) && |goal| == c.size
    ensures Within(c, s, goal)
  {
  }

  lemma Fresh(c: Config) returns (s: State)
    ensures Initial(c, s)
  {
    var rank := Rank(0, Outside, 0, [], false, [], []);
    s := State(seq(c.size, i => rank), map[], map[]);
  }

  lemma Start(c: Config, goal: seq<nat>) returns (states: seq<State>, schedule: seq<nat>)
    requires ConfigValid(c) && |goal| == c.size
    ensures |states| == |schedule| + 1 && Run(c, states, schedule)
    ensures Inv(c, states[|schedule|]) && Within(c, states[|schedule|], goal)
  {
    hide *;
    var s := Fresh(c);
    states, schedule := [s], [];
    RunOne(c, s);
    InitialInv(c, s);
    NoLevel(c, s, goal);
  }

  // ----- exactly when

  /** Every call is a synchronisation point in every interleaving if and only if the roots of
      neighbouring calls on the same channels go together. */
  lemma SynchronisesIff(c: Config)
    requires ConfigValid(c)
    ensures (forall states, schedule, n :: Run(c, states, schedule) && 0 <= n < |states| ==> Together(c, states[n]))
       <==> RootsFollow(c)
  {
    hide Run, Inv, Follows;
    if RootsFollow(c) {
      forall states, schedule, n | Run(c, states, schedule) && 0 <= n < |states| ensures Together(c, states[n]) {
        RunInv(c, states, schedule, n);
        InvTogether(c, states[n]);
      }
    } else {
      var j: nat :| !Follows(c, j);
      var states, schedule, r, q := Overtaken(c, j);
      assert !Together(c, states[|schedule|]);
    }
  }

  lemma ResultPayload(c: Config, j: nat, r: nat, o: Outcome)
    requires ConfigValid(c)
    ensures Result(c, j, r, o) ==> o.received == Payload(c, j)
  {
  }

  /** Every call in every interleaving returns what it promises, if the roots go together; and
      only if, when calls that do not follow each other send different data down. */
  lemma SucceedsIff(c: Config)
    requires ConfigValid(c)
    requires forall j: nat :: !Follows(c, j) ==> Payload(c, j) != Payload(c, j + 1)
    ensures (forall states, schedule, n :: Run(c, states, schedule) && 0 <= n < |states| ==> Succeeded(c, states[n]))
       <==> RootsFollow(c)
  {
    hide Run, Inv, Follows, Payload, Result;
    if RootsFollow(c) {
      forall states, schedule, n | Run(c, states, schedule) && 0 <= n < |states| ensures Succeeded(c, states[n]) {
        EveryCallSucceeds(c, states, schedule, n);
      }
    } else {
      var j: nat :| !Follows(c, j);
      var states, schedule, r, q := Overtaken(c, j);
      ResultPayload(c, j + 1, r, states[|schedule|].ranks[r].outcomes[j + 1]);
      assert !Result(c, j + 1, r, states[|schedule|].ranks[r].outcomes[j + 1]);
      assert !Succeeded(c, states[|schedule|]);
    }
  }

  /** A run after which rank r has returned from its second call with that data. */
  ghost predicate SecondCallGot(c: Config, states: seq<State>, schedule: seq<nat>, r: nat, data: seq<Byte>)
    requires ConfigValid(c)
  {
    && |states| == |schedule| + 1 && Run(c, states, schedule)
    && var s := states[|schedule|];
    && r < |s.ranks| && |s.ranks[r].outcomes| == 2 && s.ranks[r].outcomes[1].ok && s.ranks[r].outcomes[1].received == data
  }

  /** Four ranks, a broadcast from rank 0 and then one from rank 1: some rank returns from the
      second with the data of the first. */
  lemma NextBroadcastGoesWrong(c: Config)
    requires c.size == 4 && ConfigValid(c) && c.calls(0) == Bcast(0, [10]) && c.calls(1) == Bcast(1, [20])
    ensures exists states, schedule, r :: SecondCallGot(c, states, schedule, r, [10])
  {
    hide Run, RootsSafe;
    NextRootUnsafe(0, 1, 4);
    var states, schedule, r, q := Overtaken(c, 0);
    assert SecondCallGot(c, states, schedule, r, [10]);
  }
}
