/** The transfers that wait for a claimed slot to be emptied. They are woken through one shared
    semaphore, so the one woken need not be the one whose slot was emptied. */
module SlotHandover {
  import opened ComponentPlacement
  import opened ComponentTransfers
  import opened PlacementRuns
  import opened Prelude
  import opened TransferCycles

  predicate AwaitsAt(s: State, c: Component, d: Device, i: nat) {
    c in s.threads && s.threads[c].destination == Some(d) && s.threads[c].phase == AwaitSlot(i)
  }

  ghost predicate AwaitedAt(s: State, d: Device, i: nat) { exists c :: AwaitsAt(s, c, d, i) }

  /** The mark of a slot says whether some transfer waits for it. */
  ghost predicate Marked(s: State) {
    forall d, i: nat :: d in s.monitors && i < |s.monitors[d].awaited| ==>
      (s.monitors[d].awaited[i] <==> AwaitedAt(s, d, i))
  }

  /** A component that has announced that it leaves is still in its slot. */
  ghost predicate LeaversThere(s: State) {
    forall c, d: Device :: LeavesFrom(s, c, d) ==> Listed(s, d, c)
  }

  /** The removal lets a component enter a slot that another one has not left yet. */
  ghost predicate Overwrites(s: State, e: Event)
    requires Enabled(s, e)
  {
    e.Remove? &&
      var m, k := s.monitors[s.threads[e.c].source.value], WokenSlot(s, e.woken);
      var i := FindIndex(m.slots, e.c);
      i !in m.future && m.awaited[i] && k != i && k < |m.slots| && m.slots[k].Some?
  }

  // ----- the marks

  lemma MarksKept(s: State, t: State, d: Device, i: nat)
    requires Marked(s) && d in s.monitors && d in t.monitors && i < |s.monitors[d].awaited| == |t.monitors[d].awaited|
    requires t.monitors[d].awaited[i] == s.monitors[d].awaited[i]
    requires forall c :: AwaitsAt(t, c, d, i) <==> AwaitsAt(s, c, d, i)
    ensures t.monitors[d].awaited[i] <==> AwaitedAt(t, d, i)
  {
    if AwaitedAt(s, d, i) {
      var c :| AwaitsAt(s, c, d, i);
      assert AwaitsAt(t, c, d, i);
    }
  }

  /** At most one transfer waits for a slot. */
  lemma OneAwaits(s: State, d: Device, i: nat, c: Component, x: Component)
    requires Placed(s) && d in s.monitors && Claim(s, d, c) == Some(i) && AwaitsAt(s, x, d, i)
    ensures x == c
  {
    PlacedDevices(s);
    assert ClaimPlaced(s, d, x);
    OneClaim(s, d, c, x);
  }

  lemma AddMarks(s: State, c: Component)
    requires Placed(s) && Marked(s) && Enabled(s, Add(c))
    ensures Marked(AddStep(s, c))
  {
    hide Placed;
    var t, d := AddStep(s, c), s.threads[c].destination.value;
    var m := s.monitors[d];
    forall e, i: nat | e in t.monitors && i < |t.monitors[e].awaited|
      ensures t.monitors[e].awaited[i] <==> AwaitedAt(t, e, i)
    {
      if e == d && c in m.reserved && i == m.reserved[c] {
        assert Claim(s, d, c) == Some(i);
        if m.slots[i].Some? {
          assert AwaitsAt(t, c, d, i);
        } else {
          forall x ensures !AwaitsAt(t, x, d, i) {
            if AwaitsAt(s, x, d, i) { OneAwaits(s, d, i, c, x); }
          }
        }
      } else {
        MarksKept(s, t, e, i);
      }
    }
  }

  lemma RemoveMarks(s: State, c: Component, woken: Component)
    requires Placed(s) && Marked(s) && Enabled(s, Remove(c, woken))
    ensures Marked(RemoveStep(s, c, woken))
  {
    hide Placed;
    var t, d := RemoveStep(s, c, woken), s.threads[c].source.value;
    var m, j := s.monitors[d], FindIndex(s.monitors[d].slots, c);
    forall e, i: nat | e in t.monitors && i < |t.monitors[e].awaited|
      ensures t.monitors[e].awaited[i] <==> AwaitedAt(t, e, i)
    {
      if e == d && j !in m.future && m.awaited[j] && i == s.threads[woken].phase.slot {
        forall x ensures !AwaitsAt(t, x, d, i) {
          if AwaitsAt(s, x, d, i) {
            WokenClaimed(s, d, woken);
            OneAwaits(s, d, i, woken, x);
          }
        }
      } else {
        MarksKept(s, t, e, i);
      }
    }
  }

  lemma WokenClaimed(s: State, d: Device, woken: Component)
    requires Placed(s) && d in s.monitors && woken in s.threads && s.threads[woken].phase.AwaitSlot?
    requires s.threads[woken].destination == Some(d)
    ensures Claim(s, d, woken) == Some(s.threads[woken].phase.slot)
  {
    PlacedDevices(s);
    assert ClaimPlaced(s, d, woken);
  }

  lemma StepMarks(s: State, e: Event)
    requires Inv(s) && Placed(s) && Marked(s) && Enabled(s, e)
    ensures Marked(Step(s, e))
  {
    hide Inv, Placed, AddStep, RemoveStep, ReleasedMap, ClosesCycle, Without;
    match e
    case Add(c) => AddMarks(s, c);
    case Remove(c, woken) => RemoveMarks(s, c, woken);
    case _ => OtherMarks(s, e);
  }

  /** The marks are as before, and who waits too. */
  ghost predicate SameMarks(s: State, t: State) {
    && t.monitors.Keys == s.monitors.Keys
    && (forall d :: d in s.monitors ==> t.monitors[d].awaited == s.monitors[d].awaited)
    && forall c, d: Device, i: nat :: AwaitsAt(t, c, d, i) <==> AwaitsAt(s, c, d, i)
  }

  lemma SameMarksKept(s: State, t: State)
    requires Marked(s) && SameMarks(s, t)
    ensures Marked(t)
  {
    forall d, i: nat | d in t.monitors && i < |t.monitors[d].awaited|
      ensures t.monitors[d].awaited[i] <==> AwaitedAt(t, d, i)
    {
      MarksKept(s, t, d, i);
    }
  }

  lemma ReserveMarks(s: State, c: Component, path: seq<Waiting>)
    requires Inv(s) && Enabled(s, Reserve(c, path))
    ensures SameMarks(s, ReserveStep(s, c, path))
  {
    hide Inv, ReleasedMap, ClosesCycle, Without, CycleOf, Next;
    var d, t := s.threads[c].destination.value, ReserveStep(s, c, path);
    var m := s.monitors[d];
    if m.availableSlots <= 0 && path != [] {
      var all := [NewWaiting(s, c)] + path;
      CycleThreads(s, c, path);
      forall x, e: Device, i: nat ensures AwaitsAt(t, x, e, i) <==> AwaitsAt(s, x, e, i) {
        if x in Components(all) { MemberEarlier(s, all, x); }
      }
    }
  }

  lemma MemberEarlier(s: State, all: seq<Waiting>, x: Component)
    requires CycleOf(s, all) && x in Components(all)
    ensures x in s.threads && s.threads[x].phase in {ToReserve, Queued}
  {
    var v :| v in all && v.component == x;
    var i :| 0 <= i < |all| && all[i] == v;
    assert Earlier(s, all[i]);
  }

  lemma SignalMarks(s: State, c: Component)
    requires Inv(s) && Enabled(s, Signal(c))
    ensures SameMarks(s, SignalStep(s, c))
  {
    hide Inv;
    var d := s.threads[c].source.value;
    if s.queues[d] != [] { HeadQueued(s, d); }
  }

  lemma OtherMarks(s: State, e: Event)
    requires Inv(s) && Marked(s) && Enabled(s, e) && !e.Add? && !e.Remove?
    ensures Marked(Step(s, e))
  {
    hide Inv, ReserveStep, SignalStep, Marked, ReleasedMap, ClosesCycle;
    if e.Reserve? { ReserveMarks(s, e.c, e.path); }
    if e.Signal? { SignalMarks(s, e.c); }
    SameMarksKept(s, Step(s, e));
  }

  lemma {:induction false} RunMarked(states: seq<State>, events: seq<Event>, n: nat)
    requires Run(states, events) && n < |states| && ValidUpTo(states, events, n)
    ensures Marked(states[n])
  {
    hide Placed, Enabled, Step, Valid, NoneTwice, Marked;
    if n == 0 {
      InitialMarked(states[0]);
    } else {
      RunMarked(states, events, n - 1);
      RunInv(states, events, n - 1);
      PlacedIff(states, events, n);
      assert states[n - 1 + 1] == Step(states[n - 1], events[n - 1]) && Placed(states[n - 1]);
      StepMarks(states[n - 1], events[n - 1]);
    }
  }

  lemma InitialMarked(s: State)
    requires Initial(s)
    ensures Marked(s)
  {
  }

  // ----- removals

  /** A leaving component that is in its slot can be removed: if its slot is marked, some transfer waits. */
  lemma RemoveReady(s: State, c: Component)
    requires Inv(s) && Placed(s) && Marked(s) && At(s, c, ToRemove) && Listed(s, s.threads[c].source.value, c)
    ensures exists woken :: Enabled(s, Remove(c, woken))
  {
    hide DevicePlaced;
    var d := s.threads[c].source.value;
    var m, i := s.monitors[d], FindIndex(s.monitors[d].slots, c);
    assert MonitorValid(m);
    if m.awaited[i] {
      assert AwaitedAt(s, d, i);
      var woken :| AwaitsAt(s, woken, d, i);
      assert Enabled(s, Remove(c, woken));
    } else {
      assert Enabled(s, Remove(c, c));
    }
  }

  /** Who can be woken by a removal that wakes somebody: whoever waits at the device. */
  lemma WokenIs(s: State, c: Component, woken: Component)
    requires Inv(s) && Placed(s) && At(s, c, ToRemove) && Listed(s, s.threads[c].source.value, c)
    requires var m := s.monitors[s.threads[c].source.value]; var i := FindIndex(m.slots, c); i !in m.future && m.awaited[i]
    ensures var d := s.threads[c].source.value;
      Enabled(s, Remove(c, woken)) <==> woken in s.threads && s.threads[woken].phase.AwaitSlot?
                                        && AwaitsAt(s, woken, d, s.threads[woken].phase.slot)
  {
    hide DevicePlaced, Marked;
    var d := s.threads[c].source.value;
    assert MonitorValid(s.monitors[d]);
    if woken in s.threads && s.threads[woken].phase.AwaitSlot? && s.threads[woken].destination == Some(d) {
      PlacedDevices(s);
      WokenSeen(s, d, woken) by { InvApart(s); }
    }
  }

  /** Which removal may go wrong: the slot is marked, and another transfer waits for a slot that is full. */
  lemma MayOverwriteIff(s: State, c: Component)
    requires Inv(s) && Placed(s) && Marked(s) && At(s, c, ToRemove) && Listed(s, s.threads[c].source.value, c)
    ensures var d := s.threads[c].source.value; var m, i := s.monitors[d], FindIndex(s.monitors[d].slots, c);
      (exists woken :: Enabled(s, Remove(c, woken)) && Overwrites(s, Remove(c, woken)))
      <==> i !in m.future && AwaitedAt(s, d, i)
           && exists x, k: nat :: AwaitsAt(s, x, d, k) && k != i && k < |m.slots| && m.slots[k].Some?
  {
    hide Placed, Inv, Enabled, AwaitedAt;
    SourceKnown(s, c);
    var d := s.threads[c].source.value;
    var m, i := s.monitors[d], FindIndex(s.monitors[d].slots, c);
    MarkAt(s, d, i);
    if woken :| Enabled(s, Remove(c, woken)) && Overwrites(s, Remove(c, woken)) {
      WokenIs(s, c, woken);
      assert AwaitsAt(s, woken, d, s.threads[woken].phase.slot);
    }
    if i !in m.future && AwaitedAt(s, d, i) {
      if x, k: nat :| AwaitsAt(s, x, d, k) && k != i && k < |m.slots| && m.slots[k].Some? {
        WokenIs(s, c, x);
        assert Enabled(s, Remove(c, x)) && Overwrites(s, Remove(c, x));
      }
    }
  }

  lemma SourceKnown(s: State, c: Component)
    requires Inv(s) && At(s, c, ToRemove)
    ensures s.threads[c].source.Some? && s.threads[c].source.value in s.monitors
  {
  }

  lemma MarkAt(s: State, d: Device, i: nat)
    requires Inv(s) && Marked(s) && d in s.monitors && i < |s.monitors[d].slots|
    ensures i < |s.monitors[d].awaited| && (s.monitors[d].awaited[i] <==> AwaitedAt(s, d, i))
  {
    assert MonitorValid(s.monitors[d]);
  }

  // ----- what happens to the components that are about to leave

  /** A slot that is full changes only when its component is removed, is replaced in a cycle, or is overwritten. */
  lemma FullSlotKept(s: State, e: Event, d: Device, j: nat)
    requires Inv(s) && Placed(s) && Enabled(s, e) && d in s.monitors && j < |s.monitors[d].slots|
    requires s.monitors[d].slots[j].Some? && !Overwrites(s, e)
    requires e.Remove? ==> s.monitors[d].slots[j] != Some(e.c)
    requires e.AddInCycle? ==> s.monitors[d].slots[j] != s.inCycle[e.c].fifth
    ensures d in Step(s, e).monitors && j < |Step(s, e).monitors[d].slots|
    ensures Step(s, e).monitors[d].slots[j] == s.monitors[d].slots[j]
  {
    hide Inv, Placed, ReserveStep, RemoveStep;
    match e
    case Reserve(c, path) => FullSlotReserve(s, c, path, d, j);
    case Remove(c, woken) => FullSlotRemove(s, c, woken, d, j);
    case _ =>
  }

  lemma FullSlotReserve(s: State, c: Component, path: seq<Waiting>, d: Device, j: nat)
    requires Placed(s) && Enabled(s, Reserve(c, path)) && d in s.monitors && j < |s.monitors[d].slots|
    requires s.monitors[d].slots[j].Some?
    ensures var t := ReserveStep(s, c, path);
      d in t.monitors && j < |t.monitors[d].slots| && t.monitors[d].slots[j] == s.monitors[d].slots[j]
  {
    hide DevicePlaced, Placed, ReleasedMap, ClosesCycle;
    var e := s.threads[c].destination.value;
    PlacedDevices(s);
    FreeEmpty(s, e);
    if s.monitors[e].free != [] { assert s.monitors[e].free[0] in s.monitors[e].free; }
  }

  lemma FullSlotRemove(s: State, c: Component, woken: Component, d: Device, j: nat)
    requires Enabled(s, Remove(c, woken)) && !Overwrites(s, Remove(c, woken)) && d in s.monitors && j < |s.monitors[d].slots|
    requires s.monitors[d].slots[j].Some? && s.monitors[d].slots[j] != Some(c)
    ensures var t := RemoveStep(s, c, woken);
      d in t.monitors && j < |t.monitors[d].slots| && t.monitors[d].slots[j] == s.monitors[d].slots[j]
  {
  }

  /** Who leaves after a step did so before, or has just announced it. */
  lemma LeavesAfter(s: State, e: Event, x: Component, d: Device)
    requires Inv(s) && Placed(s) && Enabled(s, e) && LeavesFrom(Step(s, e), x, d)
    ensures (LeavesFrom(s, x, d) && !(e.Remove? && e.c == x)) || (e == Signal(x) && d in s.monitors && Listed(s, d, x))
    ensures e.AddInCycle? ==> s.inCycle[e.c].fifth != Some(x)
  {
    hide Inv, DevicePlaced, ReserveStep, SignalStep;
    match e
    case Reserve(c, path) => ReserveLeaves(s, c, path, x, d);
    case Signal(c) => SignalLeaves(s, c, x, d);
    case AddInCycle(c) => assert CyclePlaced(s, c);
    case _ =>
  }

  lemma ReserveLeaves(s: State, c: Component, path: seq<Waiting>, x: Component, d: Device)
    requires Inv(s) && Enabled(s, Reserve(c, path)) && LeavesFrom(ReserveStep(s, c, path), x, d)
    ensures LeavesFrom(s, x, d)
  {
    hide Inv, ReleasedMap, ClosesCycle, Without;
  }

  lemma SignalLeaves(s: State, c: Component, x: Component, d: Device)
    requires Inv(s) && Placed(s) && Enabled(s, Signal(c)) && LeavesFrom(SignalStep(s, c), x, d)
    ensures LeavesFrom(s, x, d) || (x == c && d in s.monitors && Listed(s, d, x))
  {
    hide Inv, DevicePlaced;
    assert ThreadPlaced(s, c);
    var e := s.threads[c].source.value;
    if s.queues[e] != [] { HeadQueued(s, e); }
  }

  /** One step: the components that are about to leave stay in their slots if and only if none is overwritten. */
  lemma StepLeavers(s: State, e: Event)
    requires Inv(s) && Placed(s) && LeaversThere(s) && Enabled(s, e)
    ensures LeaversThere(Step(s, e)) <==> !Overwrites(s, e)
  {
    hide Inv, Placed, Step, LeavesFrom, Overwrites, Enabled;
    var t := Step(s, e);
    if !Overwrites(s, e) {
      forall x: Component, d: Device | LeavesFrom(t, x, d) ensures Listed(t, d, x) {
        LeavesAfter(s, e, x, d);
        assert Listed(s, d, x);
        var j :| 0 <= j < |s.monitors[d].slots| && s.monitors[d].slots[j] == Some(x);
        FullSlotKept(s, e, d, j);
        assert t.monitors[d].slots[j] == Some(x);
      }
    } else {
      Overwritten(s, e);
    }
  }

  /** Who is overwritten is in no slot of its source any more. */
  lemma Overwritten(s: State, e: Event)
    requires Inv(s) && Placed(s) && Enabled(s, e) && Overwrites(s, e)
    ensures exists x, d: Device :: LeavesFrom(Step(s, e), x, d) && !Listed(Step(s, e), d, x)
  {
    hide Inv, Placed;
    var d, k := s.threads[e.c].source.value, s.threads[e.woken].phase.slot;
    var m, i := s.monitors[d], FindIndex(s.monitors[d].slots, e.c);
    var t := Step(s, e);
    InvApart(s);
    PlacedDevices(s);
    WokenSeen(s, d, e.woken);
    var x := m.slots[k].value;
    assert m.slots[i] == Some(e.c) && x != e.c && x != e.woken;
    assert t.monitors[d].slots == m.slots[i := None][k := Some(e.woken)];
    assert LeavesFrom(t, x, d) && !Listed(t, d, x);
  }

  /** Along every run: the components that are about to leave are in their slots at all times, if and
      only if no removal has let a component enter a slot that was still full. */
  lemma {:induction false} LeaversIff(states: seq<State>, events: seq<Event>, n: nat)
    requires Run(states, events) && n < |states| && ValidUpTo(states, events, n)
    ensures forall k :: 0 <= k < n ==> Enabled(states[k], events[k])
    ensures (forall k :: 0 <= k <= n ==> LeaversThere(states[k]))
       <==> forall k :: 0 <= k < n ==> !Overwrites(states[k], events[k])
  {
    hide Placed, Enabled, Step, Valid, NoneTwice, Overwrites, LeaversThere;
    if n == 0 {
      InitialLeavers(states[0]);
    } else {
      LeaversIff(states, events, n - 1);
      RunInv(states, events, n - 1);
      PlacedIff(states, events, n);
      var s, e := states[n - 1], events[n - 1];
      assert Enabled(s, e) && states[n - 1 + 1] == Step(s, e) && Placed(s);
      if LeaversThere(s) { StepLeavers(s, e); }
    }
  }

  lemma InitialLeavers(s: State)
    requires Initial(s)
    ensures LeaversThere(s)
  {
  }

  // ----- once overwritten

  /** A step puts into a slot only the component it is about, or the one it wakes. */
  lemma SlotGains(s: State, e: Event, x: Component, d: Device)
    requires Inv(s) && Enabled(s, e) && LeavesFrom(s, x, d) && !Listed(s, d, x)
    ensures !Listed(Step(s, e), d, x)
  {
    hide Inv, ReleasedMap, ClosesCycle, Without;
    var t := Step(s, e);
    forall j | d in t.monitors && 0 <= j < |t.monitors[d].slots| ensures t.monitors[d].slots[j] != Some(x) {
      assert s.monitors[d].slots[j] != Some(x);
    }
  }

  lemma StillLeaves(s: State, e: Event, x: Component, d: Device)
    requires Inv(s) && Enabled(s, e) && LeavesFrom(s, x, d) && !Listed(s, d, x)
    ensures LeavesFrom(Step(s, e), x, d)
  {
    hide Inv, ReserveStep, SignalStep, ClosesCycle;
    match e
    case Reserve(c, path) => ReserveStill(s, c, path, x, d);
    case Signal(c) =>
      if s.queues[s.threads[c].source.value] != [] { HeadQueued(s, s.threads[c].source.value); }
      SignalStill(s, c, x, d);
    case _ =>
  }

  lemma ReserveStill(s: State, c: Component, path: seq<Waiting>, x: Component, d: Device)
    requires Inv(s) && Enabled(s, Reserve(c, path)) && LeavesFrom(s, x, d)
    ensures LeavesFrom(ReserveStep(s, c, path), x, d)
  {
    hide Inv, ReleasedMap, ClosesCycle, Without, CycleOf;
    var all := [NewWaiting(s, c)] + path;
    if path != [] {
      CycleThreads(s, c, path);
      if x in Components(all) { MemberEarlier(s, all, x); }
    }
  }

  lemma SignalStill(s: State, c: Component, x: Component, d: Device)
    requires Enabled(s, Signal(c)) && LeavesFrom(s, x, d)
    requires var q := s.queues[s.threads[c].source.value]; q != [] ==> s.threads[q[0].component].phase == Queued
    ensures LeavesFrom(SignalStep(s, c), x, d)
  {
  }

  /** A leaving component that was overwritten never gets on: along the rest of the run it stays as it is. */
  lemma {:induction false} StuckForGood(states: seq<State>, events: seq<Event>, n: nat, k: nat, x: Component, d: Device)
    requires Run(states, events) && n <= k < |states| && LeavesFrom(states[n], x, d) && !Listed(states[n], d, x)
    ensures LeavesFrom(states[k], x, d) && !Listed(states[k], d, x)
    decreases k
  {
    hide Enabled, Step, Initial, LeavesFrom, Listed;
    if n < k {
      StuckForGood(states, events, n, k - 1, x, d);
      RunInv(states, events, k - 1);
      assert states[k - 1 + 1] == Step(states[k - 1], events[k - 1]);
      SlotGains(states[k - 1], events[k - 1], x, d);
      StillLeaves(states[k - 1], events[k - 1], x, d);
    }
  }

  // ----- a run in which the wrong transfer is woken

  const D: Device := 0

  /** One device with two slots, in which are components 1 and 2. */
  function TwoSlots(slots: seq<Option<Component>>, future: seq<int>, awaited: seq<bool>, reserved: map<Component, int>,
                    threads: map<Component, Thread>): State
  {
    State(map[D := Monitor(0, [], slots, future, awaited, reserved)], map[D := []], map[], threads)
  }

  function Leaver(phase: Phase): Thread { Thread(Some(D), None, phase) }

  function Comer(phase: Phase): Thread { Thread(None, Some(D), phase) }

  function FullSlots(): seq<Option<Component>> { [Some(1), Some(2)] }

  /** Components 1 and 2 are to be removed, 3 and 4 to be added. They have claimed the slots of 1 and 2.
      4 begins to wait first, and is woken when 1 is removed. */
  function WrongState(i: nat): State {
    var no, leavers := [false, false], map[1 := Leaver(ToRemove), 2 := Leaver(ToRemove)];
    match i
    case 0 => TwoSlots(FullSlots(), [], no, map[], map[])
    case 1 => TwoSlots(FullSlots(), [], no, map[], map[1 := Leaver(ToSignal)])
    case 2 => TwoSlots(FullSlots(), [0], no, map[], map[1 := Leaver(ToRemove)])
    case 3 => TwoSlots(FullSlots(), [0], no, map[], map[1 := Leaver(ToRemove), 2 := Leaver(ToSignal)])
    case 4 => TwoSlots(FullSlots(), [0, 1], no, map[], leavers)
    case 5 => TwoSlots(FullSlots(), [0, 1], no, map[], leavers[3 := Comer(ToReserve)])
    case 6 => TwoSlots(FullSlots(), [1], no, map[3 := 0], leavers[3 := Comer(ToAdd)])
    case 7 => TwoSlots(FullSlots(), [1], no, map[3 := 0], leavers[3 := Comer(ToAdd)][4 := Comer(ToReserve)])
    case 8 => TwoSlots(FullSlots(), [], no, map[3 := 0, 4 := 1], leavers[3 := Comer(ToAdd)][4 := Comer(ToAdd)])
    case 9 => TwoSlots(FullSlots(), [], [false, true], map[3 := 0], leavers[3 := Comer(ToAdd)][4 := Comer(AwaitSlot(1))])
    case 10 => TwoSlots(FullSlots(), [], [true, true], map[], leavers[3 := Comer(AwaitSlot(0))][4 := Comer(AwaitSlot(1))])
    case _ => TwoSlots([None, Some(4)], [], [true, false], map[],
                       leavers[1 := Leaver(ToFinish)][3 := Comer(AwaitSlot(0))][4 := Comer(ToFinish)])
  }

  function WrongEvent(i: nat): Event {
    match i
    case 0 => Begin(1, Some(D), None)
    case 1 => Signal(1)
    case 2 => Begin(2, Some(D), None)
    case 3 => Signal(2)
    case 4 => Begin(3, None, Some(D))
    case 5 => Reserve(3, [])
    case 6 => Begin(4, None, Some(D))
    case 7 => Reserve(4, [])
    case 8 => Add(4)
    case 9 => Add(3)
    case _ => Remove(1, 4)
  }

  function WrongRun(): seq<State> { seq(12, i requires 0 <= i < 12 => WrongState(i)) }

  function WrongEvents(): seq<Event> { seq(11, i requires 0 <= i < 11 => WrongEvent(i)) }

  ghost predicate Follows(i: nat) {
    Enabled(WrongState(i), WrongEvent(i)) && WrongState(i + 1) == Step(WrongState(i), WrongEvent(i))
  }

  lemma WrongStart()
    ensures Initial(WrongState(0)) && NoneTwice(WrongState(0))
  {
    var s := WrongState(0);
    var components: seq<Component> := [1, 2];
    assert InitialMonitor(2, components) == s.monitors[D];
  }

  lemma BeginsFollow()
    ensures Follows(0) && Follows(2) && Follows(4) && Follows(6)
  {
  }

  lemma BeginsValid()
    ensures Valid(WrongState(0), WrongEvent(0)) && Valid(WrongState(2), WrongEvent(2))
    ensures Valid(WrongState(4), WrongEvent(4)) && Valid(WrongState(6), WrongEvent(6))
  {
    assert FullSlots()[0] == Some(1) && FullSlots()[1] == Some(2);
  }

  lemma SignalsFollow()
    ensures Follows(1) && Follows(3)
  {
    FullIndex();
    assert [0] + [1] == [0, 1];
    assert [] + [0] == [0];
  }

  lemma FullIndex()
    ensures FindIndex(FullSlots(), 1) == 0 && FindIndex(FullSlots(), 2) == 1
  {
    assert FullSlots()[0] == Some(1) && FullSlots()[1] == Some(2);
  }

  lemma NoCycleForNew(q: Queues, w: Waiting)
    requires w.source.None?
    ensures !exists p :: ClosesCycle(q, w, p)
  {
  }

  lemma FirstReserveFollows()
    ensures Follows(5)
  {
    NoCycleForNew(Enqueued(WrongState(5).queues, NewWaiting(WrongState(5), 3)), NewWaiting(WrongState(5), 3));
    assert WrongState(6).monitors[D] == ClaimFuture(WrongState(5).monitors[D], 3);
    assert WrongState(6).threads == WithPhase(WrongState(5).threads, 3, ToAdd);
  }

  lemma SecondReserveFollows()
    ensures Follows(7)
  {
    NoCycleForNew(Enqueued(WrongState(7).queues, NewWaiting(WrongState(7), 4)), NewWaiting(WrongState(7), 4));
    assert WrongState(8).monitors[D] == ClaimFuture(WrongState(7).monitors[D], 4);
    assert WrongState(8).threads == WithPhase(WrongState(7).threads, 4, ToAdd);
  }

  lemma FirstAddFollows()
    ensures Follows(8)
  {
    assert WrongState(9).monitors[D] == Enter(WrongState(8).monitors[D], 4);
    assert WrongState(9).threads == WithPhase(WrongState(8).threads, 4, AwaitSlot(1));
  }

  lemma SecondAddFollows()
    ensures Follows(9)
  {
    assert WrongState(10).monitors[D] == Enter(WrongState(9).monitors[D], 3);
    assert WrongState(10).threads == WithPhase(WrongState(9).threads, 3, AwaitSlot(0));
  }

  lemma RemovalFollows()
    ensures Follows(10)
  {
    FullIndex();
    var s, t := WrongState(10), WrongState(11);
    assert t.monitors[D] == Vacate(s.monitors[D], 0, 4, 1);
    assert t.threads == WithPhase(WithPhase(s.threads, 1, ToFinish), 4, ToFinish);
  }

  lemma AllFollow(i: nat)
    requires i < 11
    ensures Follows(i) && Valid(WrongState(i), WrongEvent(i))
  {
    hide Follows, Valid, WrongState;
    BeginsFollow();
    BeginsValid();
    SignalsFollow();
    FirstReserveFollows();
    SecondReserveFollows();
    FirstAddFollows();
    SecondAddFollows();
    RemovalFollows();
    OthersValid(i);
  }

  lemma OthersValid(i: nat)
    ensures !WrongEvent(i).Begin? ==> Valid(WrongState(i), WrongEvent(i))
  {
    hide WrongState;
  }

  lemma OneStep(i: nat)
    requires Follows(i)
    ensures Enabled(WrongState(i), WrongEvent(i)) && WrongState(i + 1) == Step(WrongState(i), WrongEvent(i))
  {
    hide Enabled, Step, WrongState, WrongEvent;
  }

  lemma WrongEnd()
    ensures LeavesFrom(WrongState(11), 2, D) && !Listed(WrongState(11), D, 2)
  {
  }

  /** A run in which every transfer begins as it should, and at the end component 2, which is about to
      leave, is in no slot; so it never gets on. */
  lemma WrongOneWoken()
    ensures Run(WrongRun(), WrongEvents()) && ValidUpTo(WrongRun(), WrongEvents(), 11)
    ensures LeavesFrom(WrongRun()[11], 2, D) && !Listed(WrongRun()[11], D, 2)
  {
    hide Initial, NoneTwice, Enabled, Step, Valid, WrongState, WrongEvent, Follows, LeavesFrom, Listed;
    WrongStart();
    WrongEnd();
    forall i | 0 <= i < 11
      ensures Enabled(WrongState(i), WrongEvent(i)) && WrongState(i + 1) == Step(WrongState(i), WrongEvent(i))
      ensures Valid(WrongState(i), WrongEvent(i))
    {
      AllFollow(i);
      OneStep(i);
    }
  }
}
