/** The program behind `ComponentTransfers`: the monitors' methods, each proved to take
    exactly one step of the state machine and to leave the mutex free. */
module StorageSystem {
  import opened Digraph
  import opened Prelude
  import opened TransferCycles
  import opened ComponentTransfers

  // ----- facts about queues in which every component occurs once

  ghost predicate OnceEach(q: Queues, threads: map<Component, Thread>) {
    && (forall d :: d in q ==> Distinct(q[d]))
    && (forall d, v :: d in q && v in q[d] ==>
          v.component in threads && threads[v.component].destination == Some(d))
  }

  lemma {:induction false} WithoutNone(ws: seq<Waiting>, cs: set<Component>)
    requires forall w :: w in ws ==> w.component !in cs
    ensures Without(ws, cs) == ws
  {
    if ws != [] { WithoutNone(ws[1..], cs); }
  }

  lemma {:induction false} WithoutTwice(ws: seq<Waiting>, cs: set<Component>, ds: set<Component>)
    ensures Without(Without(ws, cs), ds) == Without(ws, cs + ds)
  {
    if ws != [] {
      WithoutTwice(ws[1..], cs, ds);
      var rest := Without(ws[1..], cs);
      if ws[0].component !in cs { assert ([ws[0]] + rest)[1..] == rest; } else { assert [] + rest == rest; }
    }
  }

  lemma DistinctSides(ws: seq<Waiting>, i: nat)
    requires Distinct(ws) && i < |ws|
    ensures forall w :: w in ws[..i] ==> w.component != ws[i].component
    ensures forall w :: w in ws[i + 1..] ==> w.component != ws[i].component
  {
    forall w | w in ws[..i] ensures w.component != ws[i].component {
      var k :| 0 <= k < i && ws[k] == w;
    }
    forall w | w in ws[i + 1..] ensures w.component != ws[i].component {
      var k :| 0 <= k < |ws[i + 1..]| && ws[i + 1..][k] == w;
      assert ws[i + 1 + k] == w;
    }
  }

  lemma WithoutMiddle(ws: seq<Waiting>, i: nat, c: Component)
    requires Distinct(ws) && i < |ws| && ws[i].component == c
    ensures Without(ws, {c}) == ws[..i] + ws[i + 1..]
  {
    hide Without, Distinct;
    assert ws == ws[..i] + ([ws[i]] + ws[i + 1..]);
    DistinctSides(ws, i);
    WithoutConcat(ws[..i], [ws[i]] + ws[i + 1..], {c});
    WithoutConcat([ws[i]], ws[i + 1..], {c});
    WithoutOne(ws[i], {c});
    WithoutNone(ws[..i], {c});
    WithoutNone(ws[i + 1..], {c});
  }

  /** Removing one more component touches only the queue it waits in. */
  lemma WithoutOneMore(q: Queues, threads: map<Component, Thread>, cs: set<Component>, v: Waiting)
    requires OnceEach(q, threads) && v.destination in q && v in q[v.destination]
    ensures WithoutAll(q, cs + {v.component})
         == WithoutAll(q, cs)[v.destination := Without(WithoutAll(q, cs)[v.destination], {v.component})]
  {
    hide Without, Distinct;
    var q' := WithoutAll(q, cs);
    forall d | d in q && d != v.destination ensures Without(q[d], cs + {v.component}) == q'[d] {
      WithoutMembers(q[d], cs);
      WithoutTwice(q[d], cs, {v.component});
      WithoutNone(q'[d], {v.component});
    }
    WithoutTwice(q[v.destination], cs, {v.component});
    assert WithoutAll(q, cs + {v.component}).Keys == q.Keys;
  }

  lemma EnqueuedOnce(s: State, c: Component)
    requires Inv(s) && At(s, c, ToReserve)
    ensures s.threads[c].destination.Some? && s.threads[c].destination.value in s.queues
    ensures OnceEach(Enqueued(s.queues, NewWaiting(s, c)), s.threads)
  {
    hide WaitingValid;
    var w := NewWaiting(s, c);
    DistinctAppend(s.queues[w.destination], w);
  }

  lemma ComponentsNext(path: seq<Waiting>, i: nat)
    requires i < |path|
    ensures Components(path[..i + 1]) == Components(path[..i]) + {path[i].component}
  {
    assert forall v :: v in path[..i + 1] <==> v in path[..i] || v == path[i];
  }

  lemma SameTransfer(ws: seq<Waiting>, v: Waiting, w: Waiting)
    requires Distinct(ws) && v in ws && w in ws && v.component == w.component
    ensures v == w
  {
    var k :| 0 <= k < |ws| && ws[k] == v;
    var l :| 0 <= l < |ws| && ws[l] == w;
  }

  lemma CycleQueued(q: Queues, w: Waiting, path: seq<Waiting>)
    requires ClosesCycle(q, w, path)
    ensures forall v :: v in [w] + path ==> v.destination in q && v in q[v.destination]
    ensures forall i, j :: 0 <= i < j < |[w] + path| ==> ([w] + path)[i] != ([w] + path)[j]
  {
  }

  /** The transfers of a cycle belong to different components. */
  lemma CycleComponents(q: Queues, threads: map<Component, Thread>, w: Waiting, path: seq<Waiting>)
    requires OnceEach(q, threads) && ClosesCycle(q, w, path)
    ensures forall i, j :: 0 <= i < j < |[w] + path| ==> ([w] + path)[i].component != ([w] + path)[j].component
  {
    hide Distinct, ClosesCycle;
    var all := [w] + path;
    CycleQueued(q, w, path);
    forall i, j | 0 <= i < j < |all| ensures all[i].component != all[j].component {
      if all[i].component == all[j].component { SameTransfer(q[all[i].destination], all[i], all[j]); }
    }
  }

  lemma {:induction false} ReleasedMapAt(inCycle: map<Component, Waiting>, path: seq<Waiting>, n: nat, i: nat)
    requires i < n <= |path|
    requires forall j, k :: 0 <= j < k < |path| ==> path[j].component != path[k].component
    ensures path[i].component in ReleasedMap(inCycle, path, n)
    ensures ReleasedMap(inCycle, path, n)[path[i].component] == Released(path, i)
    decreases n
  {
    if i < n - 1 { ReleasedMapAt(inCycle, path, n - 1, i); }
  }

  /** The queue without the first transfer of component c, found by a scan. */
  method RemoveQueued(ws: seq<Waiting>, c: Component) returns (found: Option<Waiting>, r: seq<Waiting>)
    requires Distinct(ws)
    ensures r == Without(ws, {c})
    ensures found.Some? ==> found.value in ws && found.value.component == c
    ensures found.None? ==> forall w :: w in ws ==> w.component != c
  {
    for i := 0 to |ws|
      invariant forall j :: 0 <= j < i ==> ws[j].component != c
    {
      if ws[i].component == c {
        WithoutMiddle(ws, i, c);
        return Some(ws[i]), ws[..i] + ws[i + 1..];
      }
    }
    WithoutNone(ws, {c});
    return None, ws;
  }

  method FindComponentIndex(slots: seq<Option<Component>>, c: Component) returns (r: int)
    ensures r == FindIndex(slots, c)
  {
    for i := 0 to |slots|
      invariant FindIndex(slots, c) == (if FindIndex(slots[i..], c) == -1 then -1 else FindIndex(slots[i..], c) + i)
    {
      assert slots[i..][1..] == slots[i + 1..];
      if slots[i] == Some(c) { return i; }
    }
    return -1;
  }

  /** Slot i is vacated; `slot` is the one claimed by the woken component. */
  method VacateSlot(m: Monitor, i: nat, woken: Component, slot: nat) returns (r: Monitor)
    requires i < |m.slots| == |m.awaited|
    requires i !in m.future && m.awaited[i] ==> slot < |m.slots|
    ensures r == Vacate(m, i, woken, slot)
  {
    var emptied := m.slots[i := None];
    if m.awaited[i] && i !in m.future {
      r := m.(slots := emptied[slot := Some(woken)], awaited := m.awaited[slot := false]);
    } else if i !in m.future {
      r := m.(slots := emptied);
    } else {
      r := m.(slots := emptied, free := InsertSorted(m.free, i), future := RemoveFirst(m.future, i),
              availableSlots := m.availableSlots + 1);
    }
  }

  method EnterSlot(m: Monitor, c: Component) returns (r: Monitor, phase: Phase)
    requires c in m.reserved ==> 0 <= m.reserved[c] < |m.slots| == |m.awaited|
    ensures r == Enter(m, c) && phase == AfterEnter(m, c)
  {
    r, phase := m, ToFinish;
    if c in m.reserved {
      var reservedSlot := m.reserved[c];
      var awaited := m.awaited[reservedSlot := true];
      r := m.(reserved := m.reserved - {c}, awaited := awaited);
      if m.slots[reservedSlot] != None {
        phase := AwaitSlot(reservedSlot);
      } else {
        assert awaited[reservedSlot := false] == m.awaited[reservedSlot := false];
        r := r.(awaited := awaited[reservedSlot := false], slots := m.slots[reservedSlot := Some(c)]);
      }
    }
  }

  class StorageSystem {
    var monitors: map<Device, Monitor>
    var queues: Queues
    var inCycle: map<Component, Waiting>
    var threads: map<Component, Thread>
    var mutexFree: bool

    function Contents(): State
      reads this
    {
      State(monitors, queues, inCycle, threads)
    }

    constructor (devices: map<Device, (nat, seq<Component>)>)
      requires forall d :: d in devices ==> |devices[d].1| <= devices[d].0
      ensures Initial(Contents()) && mutexFree && monitors.Keys == devices.Keys
    {
      monitors := map d | d in devices :: InitialMonitor(devices[d].0, devices[d].1);
      queues := map d | d in devices :: [];
      inCycle, threads := map[], map[];
      mutexFree := true;
    }

    method Begin(c: Component, source: Option<Device>, destination: Option<Device>)
      requires mutexFree && Inv(Contents()) && Enabled(Contents(), Event.Begin(c, source, destination))
      modifies this`threads
      ensures Contents() == Step(old(Contents()), Event.Begin(c, source, destination)) && Inv(Contents())
    {
      StepKeeps(Contents(), Event.Begin(c, source, destination));
      threads := threads[c := Thread(source, destination, if destination.Some? then ToReserve else ToSignal)];
    }

    /** The slot announced earliest is claimed, and the transfer leaves the queue. */
    method ClaimAnnounced(c: Component, d: Device)
      requires d in monitors && d in queues && monitors[d].future != [] && c in threads && Distinct(queues[d])
      modifies this`monitors, this`queues, this`threads, this`mutexFree
      ensures monitors == old(monitors)[d := ClaimFuture(old(monitors[d]), c)]
      ensures queues == old(queues)[d := Without(old(queues[d]), {c})]
      ensures threads == WithPhase(old(threads), c, AfterReserve(old(threads[c]))) && mutexFree
    {
      var m := monitors[d];
      var reservedSlot := m.future[0];
      monitors := monitors[d := m.(future := m.future[1..], reserved := m.reserved[c := reservedSlot])];
      var found, rest := RemoveQueued(queues[d], c);
      queues := queues[d := rest];
      threads := threads[c := threads[c].(phase := if threads[c].source.Some? then ToSignal else ToAdd)];
      mutexFree := true;
    }

    /** Marks every transfer of the cycle and takes it from its queue. */
    method MarkCycle(path: seq<Waiting>)
      requires OnceEach(queues, threads)
      requires forall v :: v in path ==> v.destination in queues && v in queues[v.destination]
      requires forall i, j :: 0 <= i < j < |path| ==> path[i].component != path[j].component
      modifies this`queues, this`inCycle
      ensures queues == WithoutAll(old(queues), Components(path))
      ensures inCycle == ReleasedMap(old(inCycle), path, |path|)
    {
      hide Without, WithoutAll, OnceEach, Distinct, Components;
      ghost var q := queues;
      MarkStart(q, path);
      for i := 0 to |path|
        invariant queues == WithoutAll(q, Components(path[..i]))
        invariant inCycle == ReleasedMap(old(inCycle), path, i)
      {
        MarkNext(q, threads, path, i);
        MarkOne(path, i);
      }
      assert path[..|path|] == path;
    }

    /** One transfer of the cycle is found in the queue of its destination, marked, and removed. */
    method MarkOne(path: seq<Waiting>, i: nat)
      requires i < |path| && path[i].destination in queues
      requires Distinct(queues[path[i].destination]) && path[i] in queues[path[i].destination]
      modifies this`queues, this`inCycle
      ensures queues == old(queues)[path[i].destination := Without(old(queues[path[i].destination]), {path[i].component})]
      ensures inCycle == old(inCycle)[path[i].component := Released(path, i)]
    {
      var d := path[i].destination;
      var found, rest := RemoveQueued(queues[d], path[i].component);
      SameTransfer(queues[d], path[i], found.value);
      var next := path[if i + 1 == |path| then 0 else i + 1].component;
      inCycle := inCycle[found.value.component :=
        found.value.(second := if i < |path| - 1 then Some(next) else None, latched := true, fifth := Some(next))];
      queues := queues[d := rest];
    }

    /** The mutex is handed along the cycle: each woken thread wakes its `second`, and the
        last one, which has none, releases the mutex. */
    method HandOver(path: seq<Waiting>)
      requires path != [] && !mutexFree
      requires forall i, j :: 0 <= i < j < |path| ==> path[i].component != path[j].component
      requires forall i :: 0 <= i < |path| ==> path[i].component in threads && path[i].component in inCycle
                                               && inCycle[path[i].component] == Released(path, i)
      modifies this`threads, this`mutexFree
      ensures threads == AllCycling(old(threads), Components(path)) && mutexFree
    {
      hide AllCycling, Components;
      ghost var i := 0;
      var current := path[0].component;
      CyclingNext(threads, path, 0);
      threads := threads[current := threads[current].(phase := Cycling)];
      while inCycle[current].second.Some?
        invariant i < |path| && current == path[i].component && !mutexFree
        invariant threads == AllCycling(old(threads), Components(path[..i + 1]))
        decreases |path| - i
      {
        CyclingNext(old(threads), path, i + 1);
        current := inCycle[current].second.value;
        i := i + 1;
        threads := threads[current := threads[current].(phase := Cycling)];
      }
      assert path[..i + 1] == path;
      mutexFree := true;
    }

    /** A free slot is taken; or the new transfer completes a cycle, which is released; or it
        claims an announced slot; or it waits. */
    method ReserveOnDevice(c: Component) returns (ghost path: seq<Waiting>)
      requires mutexFree && Inv(Contents()) && At(Contents(), c, ToReserve)
      modifies this
      ensures Enabled(old(Contents()), Reserve(c, path))
      ensures Contents() == ReserveStep(old(Contents()), c, path) && Inv(Contents()) && mutexFree
    {
      hide Inv, Enabled, Without, ClosesCycle, OnceEach, QueuesValid, SomePath, Distinct, Leq, WaitGraph, ReleasedMap,
           WithoutAll, Components, AllCycling;
      ghost var s := Contents();
      NewTransferSearchable(s, c);
      NewOnce(s, c);
      EnqueuedOnce(s, c);
      mutexFree := false;
      var d := threads[c].destination.value;
      var w := Waiting(c, threads[c].source, d, None, false, None);
      assert w == NewWaiting(s, c);
      if monitors[d].availableSlots > 0 {
        path := SomePath(Enqueued(queues, w), w);
        ReserveEnabled(s, c, path);
        ReserveKeeps(s, c, path);
        var m := monitors[d];
        monitors := monitors[d := m.(availableSlots := m.availableSlots - 1, free := m.free[1..],
                                     slots := m.slots[m.free[0] := Some(c)])];
        threads := threads[c := threads[c].(phase := if threads[c].source.Some? then ToSignal else ToAdd)];
        mutexFree := true;
      } else {
        queues := queues[d := queues[d] + [w]];
        var currentPath := DFS(queues, w);
        path := currentPath;
        ReserveEnabled(s, c, path);
        ReserveKeeps(s, c, path);
        if currentPath == [] {
          NewLeavesAgain(s, c);
          if monitors[d].future == [] {
            threads := threads[c := threads[c].(phase := Queued)];
            mutexFree := true;
          } else {
            ClaimAnnounced(c, d);
          }
        } else {
          CycleReady(s, c, currentPath);
          MarkCycle([w] + currentPath);
          MarkedCycle(s, [w] + currentPath);
          HandOver([w] + currentPath);
        }
      }
    }

    /** A slot is announced; the transfer waiting longest, if any, is woken and claims it. */
    method SignalFutureSlotAvailability(c: Component)
      requires mutexFree && Inv(Contents()) && Enabled(Contents(), Signal(c))
      modifies this
      ensures Contents() == SignalStep(old(Contents()), c) && Inv(Contents()) && mutexFree
    {
      hide Inv, Enabled, Without, FindIndex, ClaimFuture, Distinct;
      ghost var s := Contents();
      SignalReady(s, c);
      SignalKeeps(s, c);
      mutexFree := false;
      var d := threads[c].source.value;
      if queues[d] != [] { HeadLeaves(s, d); }
      var index := FindComponentIndex(monitors[d].slots, c);
      ghost var m' := s.monitors[d].(future := s.monitors[d].future + [index]);
      monitors := monitors[d := monitors[d].(future := monitors[d].future + [index])];
      threads := threads[c := threads[c].(phase := ToRemove)];
      if queues[d] != [] {
        var awakened := queues[d][0];
        queues := queues[d := queues[d][1..]];
        ClaimAnnounced(awakened.component, d);
        assert monitors == s.monitors[d := ClaimFuture(m', awakened.component)];
        assert queues == s.queues[d := s.queues[d][1..]];
      } else {
        mutexFree := true;
      }
    }

    /** The component leaves its slot. If the slot is awaited, one of the threads waiting to
        enter a slot of the device is woken while the mutex is held. */
    method RemoveFromDevice(c: Component, woken: Component)
      requires mutexFree && Inv(Contents()) && Enabled(Contents(), Remove(c, woken))
      modifies this
      ensures Contents() == RemoveStep(old(Contents()), c, woken) && Inv(Contents()) && mutexFree
    {
      hide Inv, Enabled, ThreadValid, Vacate, FindIndex;
      RemoveKeeps(Contents(), c, woken);
      RemoveReady(Contents(), c, woken);
      mutexFree := false;
      var d := threads[c].source.value;
      var m := monitors[d];
      var index := FindComponentIndex(m.slots, c);
      var slot := if woken in threads && threads[woken].phase.AwaitSlot? then threads[woken].phase.slot else 0;
      var vacated := VacateSlot(m, index, woken, slot);
      monitors := monitors[d := vacated];
      threads := threads[c := threads[c].(phase := if threads[c].destination.Some? then ToAdd else ToFinish)];
      if m.awaited[index] && index !in m.future {
        threads := threads[woken := threads[woken].(phase := ToFinish)];
      }
      mutexFree := true;
    }

    method AddToDevice(c: Component)
      requires mutexFree && Inv(Contents()) && Enabled(Contents(), Add(c))
      modifies this
      ensures Contents() == AddStep(old(Contents()), c) && Inv(Contents()) && mutexFree
    {
      hide Inv, Enabled, Enter, AfterEnter;
      AddKeeps(Contents(), c);
      AddReady(Contents(), c);
      mutexFree := false;
      var d := threads[c].destination.value;
      var entered, phase := EnterSlot(monitors[d], c);
      monitors := monitors[d := entered];
      threads := threads[c := threads[c].(phase := phase)];
      mutexFree := true;
    }

    method AddToDeviceInCycle(c: Component)
      requires mutexFree && Inv(Contents()) && Enabled(Contents(), AddInCycle(c))
      modifies this
      ensures Contents() == AddInCycleStep(old(Contents()), c) && Inv(Contents()) && mutexFree
    {
      hide Inv, Enabled, FindIndex;
      AddInCycleKeeps(Contents(), c);
      AddInCycleReady(Contents(), c);
      mutexFree := false;
      var d := threads[c].destination.value;
      var index := FindComponentIndex(monitors[d].slots, inCycle[c].fifth.value);
      monitors := monitors[d := monitors[d].(slots := monitors[d].slots[index := Some(c)])];
      threads := threads - {c};
      inCycle := inCycle - {c};
      mutexFree := true;
    }

    method Finish(c: Component)
      requires mutexFree && Inv(Contents()) && Enabled(Contents(), Event.Finish(c))
      modifies this`threads
      ensures Contents() == Step(old(Contents()), Event.Finish(c)) && Inv(Contents())
    {
      StepKeeps(Contents(), Event.Finish(c));
      threads := threads - {c};
    }
  }

  // ----- steps of the methods' proofs

  lemma MarkStart(q: Queues, path: seq<Waiting>)
    ensures WithoutAll(q, Components(path[..0])) == q
  {
    assert Components(path[..0]) == {};
    forall d | d in q ensures Without(q[d], {}) == q[d] { WithoutNone(q[d], {}); }
  }

  lemma MarkNext(q: Queues, threads: map<Component, Thread>, path: seq<Waiting>, i: nat)
    requires OnceEach(q, threads) && i < |path|
    requires path[i].destination in q && path[i] in q[path[i].destination]
    requires forall i, j :: 0 <= i < j < |path| ==> path[i].component != path[j].component
    ensures var cs := Components(path[..i]); var d := path[i].destination;
      && d in WithoutAll(q, cs) && Distinct(WithoutAll(q, cs)[d]) && path[i] in WithoutAll(q, cs)[d]
      && WithoutAll(q, Components(path[..i + 1]))
         == WithoutAll(q, cs)[d := Without(WithoutAll(q, cs)[d], {path[i].component})]
      && (forall w :: w in WithoutAll(q, cs)[d] ==> w in q[d])
  {
    var cs := Components(path[..i]);
    ComponentsNext(path, i);
    WithoutOneMore(q, threads, cs, path[i]);
    WithoutDistinct(q[path[i].destination], cs);
    WithoutMembers(q[path[i].destination], cs);
    forall v | v in path[..i] ensures v.component != path[i].component {
      var j :| 0 <= j < i && path[j] == v;
    }
  }

  lemma CyclingNext(threads: map<Component, Thread>, path: seq<Waiting>, i: nat)
    requires i < |path| && path[i].component in threads
    requires forall j, k :: 0 <= j < k < |path| ==> path[j].component != path[k].component
    ensures var t := AllCycling(threads, Components(path[..i]));
      && path[i].component in t
      && AllCycling(threads, Components(path[..i + 1])) == t[path[i].component := t[path[i].component].(phase := Cycling)]
    ensures i == 0 ==> AllCycling(threads, Components(path[..i])) == threads
  {
    ComponentsNext(path, i);
  }

  lemma CycleReady(s: State, c: Component, path: seq<Waiting>)
    requires Inv(s) && At(s, c, ToReserve)
    requires s.threads[c].destination.Some? && s.threads[c].destination.value in s.queues
    requires ClosesCycle(Enqueued(s.queues, NewWaiting(s, c)), NewWaiting(s, c), path)
    ensures var all := [NewWaiting(s, c)] + path; var q := Enqueued(s.queues, NewWaiting(s, c));
      && (forall v :: v in all ==> v.destination in q && v in q[v.destination])
      && (forall i, j :: 0 <= i < j < |all| ==> all[i].component != all[j].component)
      && (forall x :: x in Components(all) ==> x in s.threads)
  {
    var w := NewWaiting(s, c);
    EnqueuedOnce(s, c);
    CycleMembers(Enqueued(s.queues, w), w, path);
    CycleComponents(Enqueued(s.queues, w), s.threads, w, path);
    ReleaseKnown(s, w, path);
  }

  lemma MarkedCycle(s: State, all: seq<Waiting>)
    requires forall i, j :: 0 <= i < j < |all| ==> all[i].component != all[j].component
    requires forall x :: x in Components(all) ==> x in s.threads
    ensures forall i :: 0 <= i < |all| ==>
      && all[i].component in s.threads && all[i].component in ReleasedMap(s.inCycle, all, |all|)
      && ReleasedMap(s.inCycle, all, |all|)[all[i].component] == Released(all, i)
  {
    forall i | 0 <= i < |all|
      ensures all[i].component in s.threads && all[i].component in ReleasedMap(s.inCycle, all, |all|)
      ensures ReleasedMap(s.inCycle, all, |all|)[all[i].component] == Released(all, i)
    {
      ReleasedMapAt(s.inCycle, all, |all|, i);
      assert all[i].component in Components(all);
    }
  }

  lemma NewTransferSearchable(s: State, c: Component)
    requires Inv(s) && At(s, c, ToReserve)
    ensures var d := s.threads[c].destination;
      && d.Some? && d.value in s.queues && d.value in s.monitors && s.threads[c].source != d
      && QueuesValid(Enqueued(s.queues, NewWaiting(s, c)))
  {
    var w := NewWaiting(s, c);
    assert forall v :: v in Enqueued(s.queues, w)[w.destination] <==> v in s.queues[w.destination] || v == w;
  }

  ghost function SomePath(q: Queues, w: Waiting): (path: seq<Waiting>)
    ensures path == [] <==> !exists p :: ClosesCycle(q, w, p)
    ensures path != [] ==> ClosesCycle(q, w, path)
  {
    if p :| ClosesCycle(q, w, p) then p else []
  }

  lemma NewOnce(s: State, c: Component)
    requires Inv(s) && At(s, c, ToReserve)
    ensures s.threads[c].destination.Some? && s.threads[c].destination.value in s.queues
    ensures Distinct(s.queues[s.threads[c].destination.value])
    ensures forall v :: v in s.queues[s.threads[c].destination.value] ==> v.component != c
  {
    hide WaitingValid;
  }

  /** A transfer that joins the queue and claims a slot at once leaves the queue as it was. */
  lemma NewLeavesAgain(s: State, c: Component)
    requires Inv(s) && At(s, c, ToReserve)
    ensures var w := NewWaiting(s, c);
      && Distinct(Enqueued(s.queues, w)[w.destination])
      && Enqueued(s.queues, w)[w.destination := Without(Enqueued(s.queues, w)[w.destination], {c})] == s.queues
  {
    NewOnce(s, c);
    hide Inv, At, Without;
    var w := NewWaiting(s, c);
    var ws := s.queues[w.destination];
    DistinctAppend(ws, w);
    WithoutConcat(ws, [w], {c});
    WithoutOne(w, {c});
    WithoutNone(ws, {c});
    assert Without(ws + [w], {c}) == ws;
  }

  lemma HeadLeaves(s: State, d: Device)
    requires Inv(s) && d in s.queues && s.queues[d] != []
    ensures Distinct(s.queues[d][1..]) && s.queues[d][0].component in s.threads
    ensures Without(s.queues[d][1..], {s.queues[d][0].component}) == s.queues[d][1..]
  {
    hide WaitingValid;
    assert s.queues[d][0] in s.queues[d] && Distinct(s.queues[d]);
    DistinctTail(s.queues[d]);
    WithoutNone(s.queues[d][1..], {s.queues[d][0].component});
  }
}
