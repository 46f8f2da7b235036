/** Whether the ranks can always get through their calls. When the roots of two neighbouring
    calls do not go together, a rank can take a verdict that another one is still waiting for;
    that one then waits for ever, and so does, in the end, the root of the second call. */
module CollectiveFinish {
  import opened CollectiveTree
  import opened CollectiveRoots
  import opened CollectiveRuns
  import opened CollectiveSteps
  import opened CollectiveSafety
  import opened CollectiveProgress
  import opened Prelude

  // ----- how far a rank is, in steps

  function ReadAt(j: nat, first: bool): nat { 7 * j + if first then 2 else 3 }

  function SentAt(j: nat): nat { 7 * j + 4 }

  function VerdictAt(j: nat): nat { 7 * j + 5 }

  function ToldAt(j: nat, first: bool): nat { 7 * j + if first then 6 else 7 }

  lemma Counted(k: Rank, j: nat, first: bool)
    ensures ReadFrom(k, first) > j <==> Level(k) >= ReadAt(j, first)
    ensures SentUpRounds(k) > j <==> Level(k) >= SentAt(j)
    ensures VerdictRounds(k) > j <==> Level(k) >= VerdictAt(j)
    ensures ToldRounds(k, first) > j <==> Level(k) >= ToldAt(j, first)
  {
  }

  // ----- two neighbouring calls on the same channels, once all sums of the first one are sent

  /** In the second call a parent has read its child only if the child has sent. */
  ghost predicate UpPair(c: Config, s: State, j: nat, x: nat)
    requires ConfigValid(c) && |s.ranks| == c.size && x < c.size
  {
    CallParts(c, j + 1);
    x != Root(c, j + 1) ==>
      var p, first := ParentIn(c, j + 1, x), LeftIn(c, j + 1, x);
      0 <= p < c.size && (Level(s.ranks[p]) >= ReadAt(j + 1, first) ==> Level(s.ranks[x]) >= SentAt(j + 1))
  }

  ghost predicate UpQueue(c: Config, s: State, j: nat, p: nat, first: bool)
    requires ConfigValid(c) && |s.ranks| == c.size && p < c.size
  {
    CallParts(c, j + 1);
    Alive(c, j + 1, p, first) && Queue(s.up, Line(c, j + 1, p, first)) != [] ==>
      var q := ChildIn(c, j + 1, p, first);
      0 <= q < c.size && Level(s.ranks[q]) >= SentAt(j + 1)
  }

  /** In the first call a rank has a verdict only if its parent has sent it one. */
  ghost predicate DownPair(c: Config, s: State, j: nat, x: nat)
    requires ConfigValid(c) && |s.ranks| == c.size && x < c.size
  {
    CallParts(c, j);
    x != Root(c, j) ==>
      var p, first := ParentIn(c, j, x), LeftIn(c, j, x);
      0 <= p < c.size && (Level(s.ranks[x]) >= VerdictAt(j) ==> Level(s.ranks[p]) >= ToldAt(j, first))
  }

  /** Until a parent sends the verdict of the second call, its channel holds at most that of
      the first one, which its child of the first call has not got. */
  ghost predicate DownQueue(c: Config, s: State, j: nat, p: nat, first: bool)
    requires ConfigValid(c) && |s.ranks| == c.size && p < c.size
  {
    CallParts(c, j);
    var queue, q := Queue(s.down, Line(c, j, p, first)), ChildIn(c, j, p, first);
    Level(s.ranks[p]) < ToldAt(j + 1, first) && queue != [] ==>
      && |queue| == 1 && Alive(c, j, p, first) && Level(s.ranks[p]) >= ToldAt(j, first)
      && 0 <= q < c.size && Level(s.ranks[q]) < VerdictAt(j)
  }

  ghost predicate PairOk(c: Config, s: State, j: nat)
    requires ConfigValid(c)
  {
    && |s.ranks| == c.size
    && (forall x :: 0 <= x < c.size ==> Level(s.ranks[x]) >= SentAt(j))
    && (forall x :: 0 <= x < c.size ==> UpPair(c, s, j, x))
    && (forall x :: 0 <= x < c.size ==> DownPair(c, s, j, x))
    && (forall p, first :: 0 <= p < c.size ==> UpQueue(c, s, j, p, first))
    && (forall p, first :: 0 <= p < c.size ==> DownQueue(c, s, j, p, first))
  }

  // ----- what a step does to the channels

  predicate SendsSum(c: Config, s: State, x: nat, key: Channel)
    requires x < |s.ranks| && Root(c, s.ranks[x].round) < c.size
  {
    var j := s.ranks[x].round;
    s.ranks[x].pc == GotSecond && x != Root(c, j) && key == Line(c, j, ParentIn(c, j, x), LeftIn(c, j, x))
  }

  predicate ReadsVerdict(c: Config, s: State, x: nat, key: Channel)
    requires x < |s.ranks| && Root(c, s.ranks[x].round) < c.size
  {
    var j := s.ranks[x].round;
    s.ranks[x].pc == SentUp && x != Root(c, j) && key == Line(c, j, ParentIn(c, j, x), LeftIn(c, j, x))
  }

  predicate TellsVerdict(c: Config, s: State, x: nat, key: Channel)
    requires x < |s.ranks| && Root(c, s.ranks[x].round) < c.size
  {
    var j := s.ranks[x].round;
    && s.ranks[x].pc == (if key.first then GotVerdict else SentFirst)
    && Alive(c, j, x, key.first) && key == Line(c, j, x, key.first)
  }

  /** New messages come from the steps that send; a message read is gone. */
  lemma StepChannels(c: Config, s: State, x: nat, key: Channel)
    requires ConfigValid(c) && Enabled(c, s, x) && Root(c, s.ranks[x].round) < c.size
    ensures Queue(Step(c, s, x).up, key) != [] && !SendsSum(c, s, x, key) ==> Queue(s.up, key) != []
    ensures ReadsVerdict(c, s, x, key) ==>
      Queue(s.down, key) != [] && Queue(Step(c, s, x).down, key) == Queue(s.down, key)[1..]
    ensures TellsVerdict(c, s, x, key) ==> |Queue(Step(c, s, x).down, key)| == |Queue(s.down, key)| + 1
    ensures !ReadsVerdict(c, s, x, key) && !TellsVerdict(c, s, x, key) ==>
      Queue(Step(c, s, x).down, key) == Queue(s.down, key)
  {
    hide Alive, ChildIn, ParentIn, LeftIn, Root;
  }

  /** A step of a rank that is in one of the two calls, past its sum in the first. */
  ghost predicate PairStep(c: Config, s: State, j: nat, x: nat)
    requires ConfigValid(c)
  {
    && PairOk(c, s, j) && Enabled(c, s, x) && Level(s.ranks[x]) < 7 * (j + 2)
    && c.calls(j).Barrier? == c.calls(j + 1).Barrier?
  }

  lemma EnabledRange(c: Config, s: State, x: nat)
    requires ConfigValid(c) && Enabled(c, s, x)
    ensures x < |s.ranks| == c.size
  {
  }

  lemma InPair(c: Config, s: State, j: nat, x: nat)
    requires ConfigValid(c) && PairStep(c, s, j, x)
    ensures x < |s.ranks| == c.size && Level(s.ranks[x]) >= SentAt(j)
    ensures s.ranks[x].round == j + 1 || (s.ranks[x].round == j && Number(s.ranks[x].pc) >= 4)
  {
    hide UpPair, DownPair, UpQueue, DownQueue, Enabled;
    EnabledRange(c, s, x);
  }

  /** Only one rank moves, by one step. */
  lemma Moved(c: Config, s: State, x: nat, y: nat)
    requires ConfigValid(c) && Enabled(c, s, x) && y < c.size
    ensures |Step(c, s, x).ranks| == |s.ranks| == c.size
    ensures Level(Step(c, s, x).ranks[y]) == Level(s.ranks[y]) + (if x == y then 1 else 0)
  {
    hide Step, Level, Enabled;
    EnabledRange(c, s, x);
    StepLevel(c, s, x);
  }

  /** A rank that has just read a child found a message of that child. */
  lemma ReadFound(c: Config, s: State, x: nat, first: bool)
    requires ConfigValid(c) && Enabled(c, s, x) && Root(c, s.ranks[x].round) < c.size
    requires Level(s.ranks[x]) + 1 == ReadAt(s.ranks[x].round, first)
    ensures var j := s.ranks[x].round; Alive(c, j, x, first) ==> Queue(s.up, Line(c, j, x, first)) != []
  {
    hide Alive, Line, Queue;
  }

  lemma UpPairKept(c: Config, s: State, j: nat, x: nat, y: nat)
    requires ConfigValid(c) && PairStep(c, s, j, x) && y < c.size
    ensures UpPair(c, Step(c, s, x), j, y)
  {
    hide Step, Enabled, Alive, ChildIn, ParentIn, LeftIn, DownPair, DownQueue, Level;
    CallParts(c, j + 1);
    Moved(c, s, x, y);
    if y != Root(c, j + 1) {
      var p, first := ParentIn(c, j + 1, y), LeftIn(c, j + 1, y);
      FamilyUp(c, j + 1, y);
      Moved(c, s, x, p);
      assert UpPair(c, s, j, y) && UpQueue(c, s, j, p, first);
      if p == x && Level(s.ranks[x]) + 1 == ReadAt(j + 1, first) {
        LevelRound(s.ranks[x], j + 1);
        ReadFound(c, s, x, first);
      }
    }
  }

  lemma LevelRound(k: Rank, j: nat)
    requires 7 * j <= Level(k) < 7 * (j + 1)
    ensures k.round == j && Number(k.pc) == Level(k) - 7 * j
  {
  }

  lemma UpQueueKept(c: Config, s: State, j: nat, x: nat, p: nat, first: bool)
    requires ConfigValid(c) && PairStep(c, s, j, x) && p < c.size
    ensures UpQueue(c, Step(c, s, x), j, p, first)
  {
    hide Step, Enabled, Alive, ChildIn, ParentIn, LeftIn, DownPair, DownQueue, UpPair;
    CallParts(c, j + 1);
    InPair(c, s, j, x);
    CallParts(c, s.ranks[x].round);
    Moved(c, s, x, p);
    if Alive(c, j + 1, p, first) {
      var key, q := Line(c, j + 1, p, first), ChildIn(c, j + 1, p, first);
      Family(c, j + 1, p, first);
      Moved(c, s, x, q);
      assert UpQueue(c, s, j, p, first);
      StepChannels(c, s, x, key);
      if SendsSum(c, s, x, key) { FamilyUp(c, j + 1, x); }
    }
  }

  lemma DownPairKept(c: Config, s: State, j: nat, x: nat, y: nat)
    requires ConfigValid(c) && PairStep(c, s, j, x) && y < c.size
    ensures DownPair(c, Step(c, s, x), j, y)
  {
    hide Step, Alive, ChildIn, ParentIn, LeftIn, UpPair, UpQueue, Level, Line;
    CallParts(c, j);
    Moved(c, s, x, y);
    if y != Root(c, j) {
      var p, first := ParentIn(c, j, y), LeftIn(c, j, y);
      FamilyUp(c, j, y);
      Moved(c, s, x, p);
      assert DownPair(c, s, j, y) && DownQueue(c, s, j, p, first);
      if y == x && Level(s.ranks[x]) + 1 == VerdictAt(j) { LevelRound(s.ranks[x], j); }
    }
  }

  lemma DownQueueKept(c: Config, s: State, j: nat, x: nat, p: nat, first: bool)
    requires ConfigValid(c) && PairStep(c, s, j, x) && p < c.size
    ensures DownQueue(c, Step(c, s, x), j, p, first)
  {
    hide Step, Enabled, Alive, ChildIn, ParentIn, LeftIn, UpPair, UpQueue, Queue;
    CallParts(c, j);
    InPair(c, s, j, x);
    CallParts(c, s.ranks[x].round);
    var key, q := Line(c, j, p, first), ChildIn(c, j, p, first);
    Moved(c, s, x, p);
    assert DownQueue(c, s, j, p, first);
    StepChannels(c, s, x, key);
    Family(c, j, p, first);
    if 0 <= q < c.size {
      Moved(c, s, x, q);
      assert DownPair(c, s, j, q);
    }
  }

  /** Steps within the two calls keep all of it. */
  lemma PairKept(c: Config, s: State, j: nat, x: nat)
    requires ConfigValid(c) && PairStep(c, s, j, x)
    ensures PairOk(c, Step(c, s, x), j)
  {
    hide Step, Enabled, UpPair, UpQueue, DownPair, DownQueue, Level;
    EnabledRange(c, s, x);
    Moved(c, s, x, x);
    forall y | 0 <= y < c.size
      ensures Level(Step(c, s, x).ranks[y]) >= SentAt(j)
      ensures UpPair(c, Step(c, s, x), j, y) && DownPair(c, Step(c, s, x), j, y)
    {
      Moved(c, s, x, y);
      UpPairKept(c, s, j, x, y);
      DownPairKept(c, s, j, x, y);
    }
    forall p, first | 0 <= p < c.size
      ensures UpQueue(c, Step(c, s, x), j, p, first) && DownQueue(c, Step(c, s, x), j, p, first)
    {
      UpQueueKept(c, s, j, x, p, first);
      DownQueueKept(c, s, j, x, p, first);
    }
  }

  // ----- a rank that waits for ever

  /** Rank q, the child of p in call j, waits for its verdict; p has sent it, but the channel is
      empty; and nobody from p up to the root of the next call has the verdict of that call. */
  ghost predicate Robbed(c: Config, s: State, j: nat, p: nat, first: bool)
    requires ConfigValid(c) && |s.ranks| == c.size && p < c.size
  {
    CallParts(c, j);
    CallParts(c, j + 1);
    var q, root := ChildIn(c, j, p, first), Root(c, j + 1);
    && Alive(c, j, p, first) && 0 <= q < c.size && Level(s.ranks[q]) == SentAt(j)
    && Level(s.ranks[p]) >= ToldAt(j, first) && Queue(s.down, Line(c, j, p, first)) == []
    && forall y :: 0 <= y < c.size && Under(Place(p, root, c.size), Place(y, root, c.size)) ==>
         Level(s.ranks[y]) < VerdictAt(j + 1)
  }

  ghost predicate SomeRobbed(c: Config, s: State, j: nat)
    requires ConfigValid(c)
  {
    |s.ranks| == c.size && exists p: nat, first: bool :: p < c.size && Robbed(c, s, j, p, first)
  }

  /** Within the second call the sums below a rank come before its own. */
  lemma {:induction false} SumsBelow(c: Config, s: State, j: nat, x: nat, y: nat)
    requires ConfigValid(c) && PairOk(c, s, j) && x < c.size && y < c.size && Root(c, j + 1) < c.size
    requires Under(Place(x, Root(c, j + 1), c.size), Place(y, Root(c, j + 1), c.size))
    requires Level(s.ranks[y]) >= SentAt(j + 1)
    ensures Level(s.ranks[x]) >= SentAt(j + 1)
    decreases Place(x, Root(c, j + 1), c.size)
  {
    hide Root, ParentIn, LeftIn, Place, Level, DownPair, UpQueue, DownQueue;
    var root := Root(c, j + 1);
    SamePlace(x, y, root, c.size);
    if x != y {
      RootPlace(root, c.size);
      NotAbove(Place(x, root, c.size), Place(y, root, c.size));
      PlaceOfParent(c, j + 1, x);
      assert UpPair(c, s, j, x);
      SumsBelow(c, s, j, ParentIn(c, j + 1, x), y);
    }
  }

  /** The rank that waits cannot move, and nobody sends on its channel. */
  lemma RobbedWaits(c: Config, s: State, j: nat, x: nat, p: nat, first: bool)
    requires ConfigValid(c) && PairStep(c, s, j, x) && p < c.size && Robbed(c, s, j, p, first)
    requires Root(c, j) < c.size
    ensures x != ChildIn(c, j, p, first)
    ensures Queue(Step(c, s, x).down, Line(c, j, p, first)) == []
  {
    hide Step, Alive, ChildIn, ParentIn, LeftIn, PairOk, Queue;
    InPair(c, s, j, x);
    CallParts(c, s.ranks[x].round);
    CallParts(c, j + 1);
    Family(c, j, p, first);
    var q := ChildIn(c, j, p, first);
    LevelRound(s.ranks[q], j);
    StepChannels(c, s, x, Line(c, j, p, first));
    UnderSelf(Place(p, Root(c, j + 1), c.size));
  }

  /** As long as only ranks off the way to the root, or before the verdict, move. */
  lemma RobbedStays(c: Config, s: State, j: nat, x: nat, p: nat, first: bool)
    requires ConfigValid(c) && PairStep(c, s, j, x) && p < c.size && Robbed(c, s, j, p, first)
    requires Root(c, j + 1) < c.size
    requires Under(Place(p, Root(c, j + 1), c.size), Place(x, Root(c, j + 1), c.size)) ==>
               Level(s.ranks[x]) + 1 < VerdictAt(j + 1)
    ensures |Step(c, s, x).ranks| == c.size && Robbed(c, Step(c, s, x), j, p, first)
  {
    hide Step, Alive, ChildIn, Level, PairOk, Queue, Enabled, Under, Place;
    CallParts(c, j);
    RobbedWaits(c, s, j, x, p, first);
    Moved(c, s, x, p);
    Moved(c, s, x, ChildIn(c, j, p, first));
    forall y | 0 <= y < c.size && Under(Place(p, Root(c, j + 1), c.size), Place(y, Root(c, j + 1), c.size))
      ensures Level(Step(c, s, x).ranks[y]) < VerdictAt(j + 1)
    {
      Moved(c, s, x, y);
    }
  }

  /** A rank on the way to the root that gets a verdict robs the child of its own parent. */
  lemma RobsAgain(c: Config, s: State, j: nat, x: nat, p: nat, first: bool) returns (p': nat, first': bool)
    requires ConfigValid(c) && PairStep(c, s, j, x) && p < c.size && Robbed(c, s, j, p, first)
    requires Root(c, j + 1) < c.size && x < c.size
    requires Under(Place(p, Root(c, j + 1), c.size), Place(x, Root(c, j + 1), c.size))
    requires Level(s.ranks[x]) + 1 == VerdictAt(j + 1)
    ensures p' < c.size && |Step(c, s, x).ranks| == c.size && Robbed(c, Step(c, s, x), j, p', first')
  {
    hide Step, Alive, ChildIn, ParentIn, LeftIn, Level, Under, Place, UpPair, UpQueue, DownPair, Enabled, Queue;
    CallParts(c, j);
    var root := Root(c, j + 1);
    LevelRound(s.ranks[x], j + 1);
    NotTheRoot(c, s, j, x, p, first);
    PlaceOfParent(c, j + 1, x);
    p', first' := ParentIn(c, j + 1, x), LeftIn(c, j + 1, x);
    UnderParent(Place(x, root, c.size), Place(p', root, c.size));
    UnderSelf(Place(p', root, c.size));
    UnderUnder(Place(p, root, c.size), Place(x, root, c.size), Place(p', root, c.size));
    assert DownQueue(c, s, j, p', first');
    VerdictFound(c, s, x);
    StepChannels(c, s, x, Line(c, j, p', first'));
    Moved(c, s, x, p');
    Moved(c, s, x, ChildIn(c, j, p', first'));
    forall y | 0 <= y < c.size && Under(Place(p', root, c.size), Place(y, root, c.size))
      ensures Level(Step(c, s, x).ranks[y]) < VerdictAt(j + 1)
    {
      Moved(c, s, x, y);
      UnderUnder(Place(p, root, c.size), Place(p', root, c.size), Place(y, root, c.size));
      UnderOrder(Place(p', root, c.size), Place(y, root, c.size));
    }
  }

  lemma VerdictFound(c: Config, s: State, x: nat)
    requires ConfigValid(c) && Enabled(c, s, x) && s.ranks[x].pc == SentUp && Root(c, s.ranks[x].round) < c.size
    requires x != Root(c, s.ranks[x].round)
    ensures var j := s.ranks[x].round; Queue(s.down, Line(c, j, ParentIn(c, j, x), LeftIn(c, j, x))) != []
  {
  }

  /** The root of the second call lacks the sum of the rank that waits. */
  lemma NotTheRoot(c: Config, s: State, j: nat, x: nat, p: nat, first: bool)
    requires ConfigValid(c) && PairStep(c, s, j, x) && p < c.size && Robbed(c, s, j, p, first)
    requires Root(c, j + 1) < c.size && x < c.size && Level(s.ranks[x]) + 1 == VerdictAt(j + 1)
    ensures x != Root(c, j + 1)
  {
    hide Alive, ChildIn, Level, Under, Place, PairOk, Enabled, Queue;
    CallParts(c, j);
    if x == Root(c, j + 1) {
      RootPlace(x, c.size);
      UnderRoot(Place(ChildIn(c, j, p, first), x, c.size));
      SumsBelow(c, s, j, ChildIn(c, j, p, first), x);
    }
  }

  /** Somebody waits for ever. */
  lemma RobbedForEver(c: Config, s: State, j: nat, x: nat)
    requires ConfigValid(c) && PairStep(c, s, j, x) && SomeRobbed(c, s, j)
    ensures SomeRobbed(c, Step(c, s, x), j)
  {
    hide Step, PairOk, Robbed, Enabled, Level, Under, Place;
    CallParts(c, j + 1);
    EnabledRange(c, s, x);
    var p: nat, first: bool :| p < c.size && Robbed(c, s, j, p, first);
    var root := Root(c, j + 1);
    if Under(Place(p, root, c.size), Place(x, root, c.size)) && Level(s.ranks[x]) + 1 >= VerdictAt(j + 1) {
      OnTheWay(c, s, j, p, first, x);
      var p', first' := RobsAgain(c, s, j, x, p, first);
    } else {
      RobbedStays(c, s, j, x, p, first);
    }
  }

  lemma OnTheWay(c: Config, s: State, j: nat, p: nat, first: bool, x: nat)
    requires ConfigValid(c) && |s.ranks| == c.size && p < c.size && x < c.size && Robbed(c, s, j, p, first)
    requires Root(c, j + 1) < c.size && Under(Place(p, Root(c, j + 1), c.size), Place(x, Root(c, j + 1), c.size))
    ensures Level(s.ranks[x]) < VerdictAt(j + 1)
  {
  }

  // ----- along a run

  lemma RunAt(c: Config, states: seq<State>, schedule: seq<nat>, k: nat)
    requires ConfigValid(c) && |states| == |schedule| + 1 && Run(c, states, schedule) && k < |schedule|
    ensures Enabled(c, states[k], schedule[k]) && states[k + 1] == Step(c, states[k], schedule[k])
  {
  }

  lemma {:induction false} LevelsGrow(c: Config, states: seq<State>, schedule: seq<nat>, k: nat, n: nat, x: nat)
    requires ConfigValid(c) && |states| == |schedule| + 1 && Run(c, states, schedule) && k <= n < |states|
    requires x < c.size == |states[k].ranks|
    ensures |states[n].ranks| == c.size && Level(states[k].ranks[x]) <= Level(states[n].ranks[x])
    decreases n - k
  {
    hide Run, Level, Step, Enabled;
    if k < n {
      RunAt(c, states, schedule, k);
      Moved(c, states[k], schedule[k], x);
      LevelsGrow(c, states, schedule, k + 1, n, x);
    }
  }

  /** All ranks have returned from the first m calls and entered no other. */
  ghost predicate Returned(c: Config, s: State, m: nat) {
    |s.ranks| == c.size && forall x :: 0 <= x < c.size ==> Level(s.ranks[x]) == 7 * m
  }

  /** No rank has entered more than the first m calls. */
  ghost predicate InFirst(c: Config, s: State, m: nat) {
    |s.ranks| == c.size && forall x :: 0 <= x < c.size ==> Level(s.ranks[x]) <= 7 * m
  }

  ghost predicate CanFinish(c: Config, states: seq<State>, m: nat)
    requires ConfigValid(c)
  {
    exists states', schedule' ::
      |states'| == |schedule'| + 1 && Run(c, states', schedule') && states <= states' && Returned(c, states'[|schedule'|], m)
  }

  lemma {:induction false} RobbedInRun(c: Config, states: seq<State>, schedule: seq<nat>, j: nat, k: nat, n: nat)
    requires ConfigValid(c) && |states| == |schedule| + 1 && Run(c, states, schedule) && k <= n < |states|
    requires c.calls(j).Barrier? == c.calls(j + 1).Barrier?
    requires PairOk(c, states[k], j) && SomeRobbed(c, states[k], j) && InFirst(c, states[|schedule|], j + 2)
    ensures PairOk(c, states[n], j) && SomeRobbed(c, states[n], j)
  {
    hide Run, Level, Step, Enabled, PairOk, SomeRobbed;
    if k < n {
      RobbedInRun(c, states, schedule, j, k, n - 1);
      var s, x := states[n - 1], schedule[n - 1];
      RunAt(c, states, schedule, n - 1);
      EnabledRange(c, s, x);
      Moved(c, s, x, x);
      LevelsGrow(c, states, schedule, n, |schedule|, x);
      PairKept(c, s, j, x);
      RobbedForEver(c, s, j, x);
    }
  }

  lemma RobbedNotReturned(c: Config, s: State, j: nat)
    requires ConfigValid(c) && SomeRobbed(c, s, j)
    ensures !Returned(c, s, j + 2)
  {
    var p: nat, first: bool :| p < c.size && Robbed(c, s, j, p, first);
    CallParts(c, j);
    assert Level(s.ranks[ChildIn(c, j, p, first)]) == SentAt(j);
  }

  /** After a state in which a rank was robbed, the ranks cannot all return from the two calls. */
  lemma RobbedForGood(c: Config, states: seq<State>, schedule: seq<nat>, j: nat)
    requires ConfigValid(c) && |states| == |schedule| + 1 && c.calls(j).Barrier? == c.calls(j + 1).Barrier?
    requires PairOk(c, states[|schedule|], j) && SomeRobbed(c, states[|schedule|], j)
    ensures !CanFinish(c, states, j + 2)
  {
    hide Run, PairOk, SomeRobbed;
    if CanFinish(c, states, j + 2) {
      var states', schedule' :|
        |states'| == |schedule'| + 1 && Run(c, states', schedule') && states <= states'
        && Returned(c, states'[|schedule'|], j + 2);
      RobbedInRun(c, states', schedule', j, |schedule|, |schedule'|);
      RobbedNotReturned(c, states'[|schedule'|], j);
    }
  }

  // ----- the run in which it happens

  ghost predicate Between(c: Config, s: State, j: nat) {
    |s.ranks| == c.size && forall x :: 0 <= x < c.size ==> SentAt(j) <= Level(s.ranks[x]) <= SentAt(j + 1)
  }

  lemma PairUp(c: Config, s: State, j: nat, p: nat, first: bool)
    requires ConfigValid(c) && Inv(c, s) && Between(c, s, j) && p < c.size
    ensures UpQueue(c, s, j, p, first)
  {
    hide Inv, Alive, ChildIn, Level, Queue, UpMessage, ReadFrom, SentUpRounds;
    CallParts(c, j + 1);
    var key := Line(c, j + 1, p, first);
    DownIs(c, s, key);
    var i := ReadFrom(s.ranks[p], first);
    Counted(s.ranks[p], j, first);
    var q := ChildIn(c, i, p, first);
    if 0 <= q < c.size {
      Counted(s.ranks[q], i, first);
      Counted(s.ranks[q], j + 1, first);
    }
  }

  lemma PairDown(c: Config, s: State, j: nat, p: nat, first: bool)
    requires ConfigValid(c) && Inv(c, s) && Between(c, s, j) && p < c.size
    ensures DownQueue(c, s, j, p, first)
  {
    hide Inv, Alive, ChildIn, Level, Queue, DownMessage, ToldRounds, VerdictRounds;
    CallParts(c, j);
    var key := Line(c, j, p, first);
    DownIs(c, s, key);
    var told := ToldRounds(s.ranks[p], first);
    Counted(s.ranks[p], j, first);
    Counted(s.ranks[p], j + 1, first);
    if told > 0 {
      CallParts(c, told - 1);
      var q := ChildIn(c, told - 1, p, first);
      if 0 <= q < c.size {
        Counted(s.ranks[q], told - 1, first);
      }
    }
  }

  lemma PairOrder(c: Config, s: State, j: nat, x: nat)
    requires ConfigValid(c) && Inv(c, s) && |s.ranks| == c.size && x < c.size
    ensures UpPair(c, s, j, x) && DownPair(c, s, j, x)
  {
    hide RankOk, ChannelsOk, ParentIn, LeftIn, Level, ReadFrom, ToldRounds, VerdictRounds, SentUpRounds, ReadAt, ToldAt,
         SentAt, VerdictAt;
    CallParts(c, j);
    CallParts(c, j + 1);
    assert OrderOk(c, s, j, x) && OrderOk(c, s, j + 1, x);
    if x != Root(c, j) {
      Counted(s.ranks[x], j, LeftIn(c, j, x));
      Counted(s.ranks[ParentIn(c, j, x)], j, LeftIn(c, j, x));
    }
    if x != Root(c, j + 1) {
      Counted(s.ranks[x], j + 1, LeftIn(c, j + 1, x));
      Counted(s.ranks[ParentIn(c, j + 1, x)], j + 1, LeftIn(c, j + 1, x));
    }
  }

  lemma PairFromInv(c: Config, s: State, j: nat)
    requires ConfigValid(c) && Inv(c, s) && Between(c, s, j)
    ensures PairOk(c, s, j)
  {
    hide Inv, UpPair, DownPair, UpQueue, DownQueue, Level;
    forall x | 0 <= x < c.size ensures UpPair(c, s, j, x) && DownPair(c, s, j, x) { PairOrder(c, s, j, x); }
    forall p, first | 0 <= p < c.size ensures UpQueue(c, s, j, p, first) && DownQueue(c, s, j, p, first) {
      PairUp(c, s, j, p, first);
      PairDown(c, s, j, p, first);
    }
  }

  lemma StandsBetween(c: Config, s: State, j: nat, q: nat, r: nat)
    requires Root(c, j) < c.size && Root(c, j + 1) < c.size && q < c.size && r < c.size
    requires Arrived(c, s, Standstill(c, j, q, r))
    ensures Between(c, s, j)
  {
    hide Level, SubtreeIn;
    forall x | 0 <= x < c.size ensures SentAt(j) <= Level(s.ranks[x]) <= SentAt(j + 1) { StandsAt(c, s, j, q, r, x); }
  }

  /** The first theft, at the standstill. */
  lemma Robs(c: Config, s: State, j: nat, p: nat, first: bool, q: nat, r: nat)
    requires ConfigValid(c) && Root(c, j) < c.size && Root(c, j + 1) < c.size && |s.ranks| == c.size
    requires PairOk(c, s, j) && Between(c, s, j) && c.calls(j).Barrier? == c.calls(j + 1).Barrier?
    requires p < c.size && q < c.size && r < c.size && q != r
    requires Alive(c, j, p, first) && ChildIn(c, j, p, first) == q
    requires Alive(c, j + 1, p, first) && ChildIn(c, j + 1, p, first) == r
    requires Level(s.ranks[r]) == SentAt(j + 1) && Level(s.ranks[q]) == SentAt(j)
    requires Queue(s.down, Line(c, j, p, first)) == [DownMessage(c, j)]
    ensures Enabled(c, s, r) && PairOk(c, Step(c, s, r), j) && SomeRobbed(c, Step(c, s, r), j)
    ensures InFirst(c, Step(c, s, r), j + 2)
  {
    hide Alive, ChildIn, ParentIn, LeftIn, Level, Step, PairOk, Queue, Place, Under, DownMessage;
    LevelRound(s.ranks[r], j + 1);
    Family(c, j + 1, p, first);
    CanTake(c, s, r);
    PairKept(c, s, j, r);
    ToldAlready(c, s, j, p, first, q);
    StepChannels(c, s, r, Line(c, j, p, first));
    ParentPlace(c, j + 1, r);
    NotUnder(Place(p, Root(c, j + 1), c.size), Place(r, Root(c, j + 1), c.size));
    Moved(c, s, r, p);
    Moved(c, s, r, q);
    forall y | 0 <= y < c.size
      ensures Level(Step(c, s, r).ranks[y]) <= 7 * (j + 2)
      ensures Under(Place(p, Root(c, j + 1), c.size), Place(y, Root(c, j + 1), c.size)) ==>
        Level(Step(c, s, r).ranks[y]) < VerdictAt(j + 1)
    {
      Moved(c, s, r, y);
    }
    assert Robbed(c, Step(c, s, r), j, p, first);
  }

  lemma CanTake(c: Config, s: State, r: nat)
    requires ConfigValid(c) && r < |s.ranks| == c.size && s.ranks[r].pc == SentUp && Root(c, s.ranks[r].round) < c.size
    requires var j := s.ranks[r].round; Queue(s.down, Line(c, j, ParentIn(c, j, r), LeftIn(c, j, r))) != []
    ensures Enabled(c, s, r)
  {
  }

  lemma ToldAlready(c: Config, s: State, j: nat, p: nat, first: bool, q: nat)
    requires ConfigValid(c) && PairOk(c, s, j) && p < c.size && Queue(s.down, Line(c, j, p, first)) != []
    requires Level(s.ranks[p]) <= SentAt(j + 1)
    ensures Level(s.ranks[p]) >= ToldAt(j, first)
  {
    assert DownQueue(c, s, j, p, first);
  }

  /** A run of the first j + 2 calls that cannot be brought to an end. */
  lemma DeadEnd(c: Config, j: nat) returns (states: seq<State>, schedule: seq<nat>)
    requires ConfigValid(c) && !Follows(c, j)
    ensures |states| == |schedule| + 1 && Run(c, states, schedule) && InFirst(c, states[|schedule|], j + 2)
    ensures !CanFinish(c, states, j + 2)
  {
    hide *;
    CallParts(c, j);
    CallParts(c, j + 1);
    var p, first, q, r := Disagreement(c, j);
    StandstillFeasible(c, j, q, r);
    states, schedule := Start(c, Standstill(c, j, q, r));
    states, schedule := Reach(c, states, schedule, Standstill(c, j, q, r));
    var s := states[|schedule|];
    AtStandstill(c, s, j, p, first, q, r);
    LevelAt(s.ranks[r], j + 1);
    LevelAt(s.ranks[q], j);
    StandsBetween(c, s, j, q, r);
    PairFromInv(c, s, j);
    Robs(c, s, j, p, first, q, r);
    RunSnoc(c, states, schedule, r);
    states, schedule := states + [Step(c, s, r)], schedule + [r];
    RobbedForGood(c, states, schedule, j);
  }

  lemma LevelAt(k: Rank, j: nat)
    requires k.round == j && k.pc == SentUp
    ensures Level(k) == SentAt(j)
  {
  }

  lemma Finishes(c: Config, states: seq<State>, schedule: seq<nat>, m: nat)
    requires ConfigValid(c) && RootsFollow(c) && |states| == |schedule| + 1 && Run(c, states, schedule)
    requires InFirst(c, states[|schedule|], m)
    ensures CanFinish(c, states, m)
  {
    hide Run, Inv, RootsFollow, Feasible, Level;
    RunInv(c, states, schedule, |schedule|);
    AllFeasible(c, m);
    var states', schedule' := Reach(c, states, schedule, seq(c.size, i => 7 * m));
    assert Returned(c, states'[|schedule'|], m);
  }

  /** Whatever has happened, all ranks can still return from all calls they have begun, if and
      only if the roots of neighbouring calls on the same channels go together. */
  lemma FinishesIff(c: Config)
    requires ConfigValid(c)
    ensures
      (forall states, schedule, m: nat ::
         |states| == |schedule| + 1 && Run(c, states, schedule) && InFirst(c, states[|schedule|], m) ==>
           CanFinish(c, states, m))
      <==> RootsFollow(c)
  {
    hide Run, InFirst, CanFinish, Follows;
    if RootsFollow(c) {
      forall states, schedule, m: nat |
        |states| == |schedule| + 1 && Run(c, states, schedule) && InFirst(c, states[|schedule|], m)
        ensures CanFinish(c, states, m)
      {
        Finishes(c, states, schedule, m);
      }
    } else {
      var j: nat :| !Follows(c, j);
      var states, schedule := DeadEnd(c, j);
    }
  }
}
