/** The storage system: transfers of components between devices under one global mutex.
    Each section executed with the mutex held, including the sections of the threads it is
    handed over to, is one step. */
module ComponentTransfers {
  import opened Digraph
  import opened Prelude
  import opened TransferCycles

  /** Where a thread is between two of its mutex-held sections. */
  datatype Phase =
    | ToReserve
    | Queued
    | Cycling
    | ToSignal
    | ToRemove
    | ToAdd
    | AwaitSlot(slot: nat)
    | ToFinish

  datatype Thread = Thread(source: Option<Device>, destination: Option<Device>, phase: Phase)

  /** `free` is the priority queue of free slots, least first; `future` the announced slots
      nobody has claimed; `reserved` the announced slots claimed by a component. */
  datatype Monitor = Monitor(availableSlots: int, free: seq<nat>, slots: seq<Option<Component>>,
                             future: seq<int>, awaited: seq<bool>, reserved: map<Component, int>)

  datatype State = State(monitors: map<Device, Monitor>, queues: Queues,
                         inCycle: map<Component, Waiting>, threads: map<Component, Thread>)

  // ----- helpers of the steps

  function FindIndex(slots: seq<Option<Component>>, c: Component): (i: int)
    ensures -1 <= i < |slots| && (i >= 0 ==> slots[i] == Some(c))
    ensures forall j :: 0 <= j < (if i == -1 then |slots| else i) ==> slots[j] != Some(c)
  {
    if slots == [] then -1
    else if slots[0] == Some(c) then 0
    else var i := FindIndex(slots[1..], c); if i == -1 then -1 else i + 1
  }

  function InsertSorted(free: seq<nat>, i: nat): (r: seq<nat>)
    ensures |r| == |free| + 1 && forall x :: x in r ==> x in free || x == i
  {
    if free == [] || i <= free[0] then [i] + free else [free[0]] + InsertSorted(free[1..], i)
  }

  function RemoveFirst(s: seq<int>, x: int): seq<int> {
    if s == [] then [] else if s[0] == x then s[1..] else [s[0]] + RemoveFirst(s[1..], x)
  }

  /** The queue without the transfers of the given components. */
  function Without(ws: seq<Waiting>, cs: set<Component>): seq<Waiting> {
    if ws == [] then [] else (if ws[0].component in cs then [] else [ws[0]]) + Without(ws[1..], cs)
  }

  lemma {:induction false} WithoutMembers(ws: seq<Waiting>, cs: set<Component>)
    ensures forall w :: w in Without(ws, cs) <==> w in ws && w.component !in cs
  {
    if ws != [] { WithoutMembers(ws[1..], cs); }
  }

  function Components(path: seq<Waiting>): set<Component> { set w | w in path :: w.component }

  function NewWaiting(s: State, c: Component): Waiting
    requires c in s.threads && s.threads[c].destination.Some?
  {
    Waiting(c, s.threads[c].source, s.threads[c].destination.value, None, false, None)
  }

  function Enqueued(q: Queues, w: Waiting): Queues
    requires w.destination in q
  {
    q[w.destination := q[w.destination] + [w]]
  }

  function WithoutAll(q: Queues, cs: set<Component>): Queues {
    map d | d in q :: Without(q[d], cs)
  }

  /** Transfer i of a released cycle: it wakes the next one, and replaces its component. */
  function Released(path: seq<Waiting>, i: nat): Waiting
    requires i < |path|
  {
    var next := path[if i + 1 == |path| then 0 else i + 1].component;
    path[i].(second := if i < |path| - 1 then Some(next) else None, latched := true, fifth := Some(next))
  }

  function ReleasedMap(inCycle: map<Component, Waiting>, path: seq<Waiting>, n: nat): map<Component, Waiting>
    requires n <= |path|
  {
    if n == 0 then inCycle else ReleasedMap(inCycle, path, n - 1)[path[n - 1].component := Released(path, n - 1)]
  }

  function WithPhase(threads: map<Component, Thread>, c: Component, phase: Phase): map<Component, Thread>
    requires c in threads
  {
    threads[c := threads[c].(phase := phase)]
  }

  function AllCycling(threads: map<Component, Thread>, cs: set<Component>): map<Component, Thread> {
    map c | c in threads :: if c in cs then threads[c].(phase := Cycling) else threads[c]
  }

  /** What a thread does after reserve and prepare when it is not part of a cycle. */
  function AfterReserve(t: Thread): Phase { if t.source.Some? then ToSignal else ToAdd }

  // ----- the steps

  datatype Event =
    | Begin(c: Component, source: Option<Device>, destination: Option<Device>)
    | Reserve(c: Component, path: seq<Waiting>)
    | Signal(c: Component)
    | Remove(c: Component, woken: Component)
    | Add(c: Component)
    | AddInCycle(c: Component)
    | Finish(c: Component)

  ghost predicate At(s: State, c: Component, phase: Phase) { c in s.threads && s.threads[c].phase == phase }

  /** A positive count means that the queue of free slots can be polled. */
  predicate SlotReady(m: Monitor) { m.availableSlots > 0 ==> m.free != [] && m.free[0] < |m.slots| }

  /** The steps that can be taken. A section that throws while it holds the mutex keeps it
      forever, so it is no step: the index of a component not found, or of a bad slot. */
  ghost predicate Enabled(s: State, e: Event) {
    match e
    case Begin(c, source, destination) =>
      && c !in s.threads && source != destination
      && (source.Some? ==> source.value in s.monitors)
      && (destination.Some? ==> destination.value in s.monitors)
    case Reserve(c, path) =>
      && At(s, c, ToReserve) && s.threads[c].destination.Some? && s.threads[c].destination.value in s.monitors
      && s.threads[c].destination.value in s.queues
      && SlotReady(s.monitors[s.threads[c].destination.value])
      && var w := NewWaiting(s, c); var q := Enqueued(s.queues, w);
         && (path == [] <==> !exists p :: ClosesCycle(q, w, p))
         && (path != [] ==> ClosesCycle(q, w, path))
    case Signal(c) =>
      && At(s, c, ToSignal) && s.threads[c].source.Some? && s.threads[c].source.value in s.monitors
      && s.threads[c].source.value in s.queues
      && var q := s.queues[s.threads[c].source.value]; q != [] ==> q[0].component in s.threads
    case Remove(c, woken) =>
      && At(s, c, ToRemove) && s.threads[c].source.Some? && s.threads[c].source.value in s.monitors
      && var m := s.monitors[s.threads[c].source.value]; var i := FindIndex(m.slots, c);
         && 0 <= i < |m.slots| == |m.awaited|
         && (i !in m.future && m.awaited[i] ==>
               && woken in s.threads && s.threads[woken].phase.AwaitSlot?
               && s.threads[woken].destination == s.threads[c].source
               && s.threads[woken].phase.slot < |m.slots|)
    case Add(c) =>
      && At(s, c, ToAdd) && s.threads[c].destination.Some? && s.threads[c].destination.value in s.monitors
      && var m := s.monitors[s.threads[c].destination.value];
         c in m.reserved ==> 0 <= m.reserved[c] < |m.slots| == |m.awaited|
    case AddInCycle(c) =>
      && At(s, c, Cycling) && c in s.inCycle && s.inCycle[c].fifth.Some?
      && s.threads[c].destination.Some? && s.threads[c].destination.value in s.monitors
      && FindIndex(s.monitors[s.threads[c].destination.value].slots, s.inCycle[c].fifth.value) >= 0
    case Finish(c) => At(s, c, ToFinish)
  }

  /** A slot taken at once: the least free one. */
  function TakeSlot(m: Monitor, c: Component): Monitor
    requires m.free != [] && m.free[0] < |m.slots|
  {
    m.(availableSlots := m.availableSlots - 1, free := m.free[1..], slots := m.slots[m.free[0] := Some(c)])
  }

  /** The slot announced earliest is claimed. */
  function ClaimFuture(m: Monitor, c: Component): Monitor
    requires m.future != []
  {
    m.(future := m.future[1..], reserved := m.reserved[c := m.future[0]])
  }

  function ReserveStep(s: State, c: Component, path: seq<Waiting>): State
    requires c in s.threads && s.threads[c].destination.Some?
    requires var d := s.threads[c].destination.value;
      && d in s.monitors && d in s.queues
      && (s.monitors[d].availableSlots > 0 ==> s.monitors[d].free != [] && s.monitors[d].free[0] < |s.monitors[d].slots|)
  {
    var d := s.threads[c].destination.value;
    var m := s.monitors[d];
    var w := NewWaiting(s, c);
    if m.availableSlots > 0 then
      s.(monitors := s.monitors[d := TakeSlot(m, c)], threads := WithPhase(s.threads, c, AfterReserve(s.threads[c])))
    else if path != [] then
      var all := [w] + path;
      s.(queues := WithoutAll(Enqueued(s.queues, w), Components(all)),
         inCycle := ReleasedMap(s.inCycle, all, |all|),
         threads := AllCycling(s.threads, Components(all)))
    else if m.future == [] then
      s.(queues := Enqueued(s.queues, w), threads := WithPhase(s.threads, c, Queued))
    else
      s.(monitors := s.monitors[d := ClaimFuture(m, c)], threads := WithPhase(s.threads, c, AfterReserve(s.threads[c])))
  }

  /** The slot is announced; the longest waiting transfer, if any, is woken and claims the
      slot announced earliest. */
  function SignalStep(s: State, c: Component): State
    requires c in s.threads && s.threads[c].source.Some?
    requires var d := s.threads[c].source.value;
      && d in s.monitors && d in s.queues && (s.queues[d] != [] ==> s.queues[d][0].component in s.threads)
  {
    var d := s.threads[c].source.value;
    var m := s.monitors[d];
    var m' := m.(future := m.future + [FindIndex(m.slots, c)]);
    var threads := WithPhase(s.threads, c, ToRemove);
    if s.queues[d] == [] then
      s.(monitors := s.monitors[d := m'], threads := threads)
    else
      var h := s.queues[d][0].component;
      s.(monitors := s.monitors[d := ClaimFuture(m', h)], queues := s.queues[d := s.queues[d][1..]],
         threads := WithPhase(threads, h, AfterReserve(threads[h])))
  }

  /** Slot i is vacated: it becomes free if it is announced and unclaimed; otherwise the
      component waiting to enter a slot, if slot i is awaited, enters the slot it claimed. */
  function Vacate(m: Monitor, i: nat, woken: Component, slot: nat): Monitor
    requires i < |m.slots| == |m.awaited|
    requires i !in m.future && m.awaited[i] ==> slot < |m.slots|
  {
    var emptied := m.slots[i := None];
    if i in m.future then
      m.(slots := emptied, free := InsertSorted(m.free, i), future := RemoveFirst(m.future, i),
         availableSlots := m.availableSlots + 1)
    else if m.awaited[i] then
      m.(slots := emptied[slot := Some(woken)], awaited := m.awaited[slot := false])
    else
      m.(slots := emptied)
  }

  function WokenSlot(s: State, woken: Component): nat {
    if woken in s.threads && s.threads[woken].phase.AwaitSlot? then s.threads[woken].phase.slot else 0
  }

  function RemoveStep(s: State, c: Component, woken: Component): State
    requires Enabled(s, Remove(c, woken))
  {
    var t := s.threads[c];
    var d := t.source.value;
    var m := s.monitors[d];
    var i := FindIndex(m.slots, c);
    var threads := WithPhase(s.threads, c, AfterRemove(t));
    s.(monitors := s.monitors[d := Vacate(m, i, woken, WokenSlot(s, woken))],
       threads := if i !in m.future && m.awaited[i] then WithPhase(threads, woken, ToFinish) else threads)
  }

  function AfterRemove(t: Thread): Phase { if t.destination.Some? then ToAdd else ToFinish }

  /** The component enters the slot it claimed, or announces that it waits for it. */
  function Enter(m: Monitor, c: Component): Monitor
    requires c in m.reserved ==> 0 <= m.reserved[c] < |m.slots| == |m.awaited|
  {
    if c !in m.reserved then m
    else
      var slot := m.reserved[c];
      var m' := m.(reserved := m.reserved - {c});
      if m.slots[slot].Some? then m'.(awaited := m.awaited[slot := true])
      else m'.(awaited := m.awaited[slot := false], slots := m.slots[slot := Some(c)])
  }

  function AfterEnter(m: Monitor, c: Component): Phase
    requires c in m.reserved ==> 0 <= m.reserved[c] < |m.slots|
  {
    if c in m.reserved && m.slots[m.reserved[c]].Some? then AwaitSlot(m.reserved[c]) else ToFinish
  }

  function AddStep(s: State, c: Component): State
    requires Enabled(s, Add(c))
  {
    var d := s.threads[c].destination.value;
    var m := s.monitors[d];
    s.(monitors := s.monitors[d := Enter(m, c)], threads := WithPhase(s.threads, c, AfterEnter(m, c)))
  }

  function AddInCycleStep(s: State, c: Component): State
    requires Enabled(s, AddInCycle(c))
  {
    var d := s.threads[c].destination.value;
    var m := s.monitors[d];
    var i := FindIndex(m.slots, s.inCycle[c].fifth.value);
    s.(monitors := s.monitors[d := m.(slots := m.slots[i := Some(c)])],
       inCycle := s.inCycle - {c}, threads := s.threads - {c})
  }

  ghost function Step(s: State, e: Event): State
    requires Enabled(s, e)
  {
    match e
    case Begin(c, source, destination) =>
      s.(threads := s.threads[c := Thread(source, destination, if destination.Some? then ToReserve else ToSignal)])
    case Reserve(c, path) => ReserveStep(s, c, path)
    case Signal(c) => SignalStep(s, c)
    case Remove(c, woken) => RemoveStep(s, c, woken)
    case Add(c) => AddStep(s, c)
    case AddInCycle(c) => AddInCycleStep(s, c)
    case Finish(c) => s.(threads := s.threads - {c})
  }

  // ----- the invariant

  predicate MonitorValid(m: Monitor) {
    && m.availableSlots == |m.free| && (forall i :: i in m.free ==> i < |m.slots|)
    && |m.awaited| == |m.slots|
  }

  ghost predicate Distinct(ws: seq<Waiting>) {
    forall i, j :: 0 <= i < j < |ws| ==> ws[i].component != ws[j].component
  }

  /** Every queued transfer belongs to a thread that waits on it. */
  ghost predicate QueuedWait(q: Queues, threads: map<Component, Thread>) {
    forall d, w :: d in q && w in q[d] ==>
      && w == Waiting(w.component, w.source, d, None, false, None)
      && w.component in threads && threads[w.component] == Thread(w.source, Some(d), Queued)
  }

  function TransferOf(c: Component, t: Thread): Waiting
    requires t.destination.Some?
  {
    Waiting(c, t.source, t.destination.value, None, false, None)
  }

  /** Every waiting thread's transfer is in the queue of its destination. */
  ghost predicate WaitersQueued(q: Queues, threads: map<Component, Thread>) {
    forall c :: c in threads && threads[c].phase == Queued ==>
      && threads[c].destination.Some? && threads[c].destination.value in q
      && TransferOf(c, threads[c]) in q[threads[c].destination.value]
  }

  ghost predicate AllDistinct(q: Queues) { forall d :: d in q ==> Distinct(q[d]) }

  /** The queued transfers are those of the threads waiting on them, once each. */
  ghost predicate QueuesMatch(q: Queues, threads: map<Component, Thread>) {
    QueuedWait(q, threads) && AllDistinct(q) && WaitersQueued(q, threads)
  }

  ghost predicate ThreadValid(devices: set<Device>, t: Thread, cycling: bool) {
    && t.source != t.destination
    && (t.source.Some? ==> t.source.value in devices)
    && (t.destination.Some? ==> t.destination.value in devices)
    && (t.phase in {ToReserve, Queued, Cycling, ToAdd} || t.phase.AwaitSlot? ==> t.destination.Some?)
    && (t.phase in {ToSignal, ToRemove, Cycling} ==> t.source.Some?)
    && (t.phase == Cycling <==> cycling)
  }

  ghost predicate ThreadsValid(devices: set<Device>, threads: map<Component, Thread>, cycling: set<Component>) {
    forall c :: c in threads ==> ThreadValid(devices, threads[c], c in cycling)
  }

  ghost predicate MonitorsValid(monitors: map<Device, Monitor>) {
    forall d :: d in monitors ==> MonitorValid(monitors[d])
  }

  /** While somebody waits for a device, it has no free and no unclaimed announced slot. */
  ghost predicate NothingIdle(monitors: map<Device, Monitor>, q: Queues) {
    forall d :: d in q && d in monitors && q[d] != [] ==> Exhausted(monitors[d])
  }

  predicate Exhausted(m: Monitor) { m.availableSlots == 0 && m.future == [] }

  ghost predicate WaitingValid(q: Queues) { QueuesValid(q) && Acyclic(WaitGraph(q)) }

  ghost predicate Inv(s: State) {
    && s.monitors.Keys == s.queues.Keys && s.inCycle.Keys <= s.threads.Keys
    && MonitorsValid(s.monitors)
    && QueuesMatch(s.queues, s.threads)
    && ThreadsValid(s.monitors.Keys, s.threads, s.inCycle.Keys)
    && WaitingValid(s.queues)
    && NothingIdle(s.monitors, s.queues)
  }

  lemma ReserveEnabled(s: State, c: Component, path: seq<Waiting>)
    requires Inv(s) && At(s, c, ToReserve)
    requires s.threads[c].destination.Some? && s.threads[c].destination.value in s.queues
    requires var w := NewWaiting(s, c); var q := Enqueued(s.queues, w);
      && (path == [] <==> !exists p :: ClosesCycle(q, w, p)) && (path != [] ==> ClosesCycle(q, w, path))
    ensures Enabled(s, Reserve(c, path)) && SlotReady(s.monitors[s.threads[c].destination.value])
  {
    var m := s.monitors[s.threads[c].destination.value];
    if m.free != [] { assert m.free[0] in m.free; }
  }

  /** A thread about to reserve or to signal can always take that step. */
  lemma NeverStuck(s: State, c: Component)
    requires Inv(s) && c in s.threads
    ensures s.threads[c].phase == ToReserve ==> exists path :: Enabled(s, Reserve(c, path))
    ensures s.threads[c].phase == ToSignal ==> Enabled(s, Signal(c))
  {
    if s.threads[c].phase == ToReserve {
      var w := NewWaiting(s, c);
      if p :| ClosesCycle(Enqueued(s.queues, w), w, p) {
        ReserveEnabled(s, c, p);
      } else {
        ReserveEnabled(s, c, []);
      }
    }
    if s.threads[c].phase == ToSignal {
      var d := s.threads[c].source.value;
      if s.queues[d] != [] { assert s.queues[d][0] in s.queues[d]; }
    }
  }

  lemma SignalReady(s: State, c: Component)
    requires Inv(s) && Enabled(s, Signal(c))
    ensures c in s.threads && s.threads[c].source.Some?
    ensures var d := s.threads[c].source.value;
      && d in s.queues && d in s.monitors
      && (s.queues[d] != [] ==> s.queues[d][0].component in s.threads && s.queues[d][0].component != c)
  {
    var d := s.threads[c].source.value;
    if s.queues[d] != [] { assert s.queues[d][0] in s.queues[d]; }
  }

  /** Dropping queued transfers cannot create a cycle. */
  lemma FewerWaiting(q: Queues, q': Queues)
    requires WaitingValid(q) && q'.Keys == q.Keys
    requires forall d, w :: d in q' && w in q'[d] ==> w in q[d]
    ensures WaitingValid(q')
  {
    WaitGraphClosed(q);
    forall x, y | Edge(WaitGraph(q'), x, y) ensures Leq(WaitGraph(q), x, y) && x != y {
      assert Edge(WaitGraph(q), x, y);
      LeqEdge(WaitGraph(q), x, y);
      NoSelfEdge(WaitGraph(q), x);
    }
    AcyclicSubset(WaitGraph(q'), WaitGraph(q));
  }

  lemma SourcesAppend(ws: seq<Waiting>, w: Waiting)
    ensures Sources(ws + [w]) == Sources(ws) + if Followable(w) then {w.source.value} else {}
  {
    assert forall v :: v in ws + [w] <==> v in ws || v == w;
  }

  /** A transfer that closes no cycle may wait. */
  lemma OneMoreWaiting(q: Queues, w: Waiting)
    requires WaitingValid(q) && w.destination in q && !w.latched && w.source != Some(w.destination)
    requires w.source.Some? ==> w.source.value in q
    requires !exists p :: ClosesCycle(Enqueued(q, w), w, p)
    ensures WaitingValid(Enqueued(q, w))
  {
    var g, g' := WaitGraph(q), WaitGraph(Enqueued(q, w));
    WaitGraphClosed(q);
    SourcesAppend(q[w.destination], w);
    NoCycleNoPath(Enqueued(q, w), w);
    if w.source.Some? {
      assert g' == WithEdge(g, w.destination, w.source.value);
      if Leq(g, w.source.value, w.destination) {
        WithEdgeKeeps(g, w.destination, w.source.value);
        LeqSubset(g, g', w.source.value, w.destination);
      }
      WithEdgeOrder(g, w.destination, w.source.value);
    } else {
      forall d | d in g ensures g'[d] == g[d] {}
      assert g' == g;
    }
  }

  // ----- every step keeps the invariant

  lemma QueuesMatchAdd(q: Queues, threads: map<Component, Thread>, c: Component, w: Waiting)
    requires QueuesMatch(q, threads) && c in threads && threads[c].phase != Queued && w.destination in q
    requires w == Waiting(c, threads[c].source, w.destination, None, false, None)
    requires threads[c].destination == Some(w.destination)
    ensures QueuesMatch(Enqueued(q, w), WithPhase(threads, c, Queued))
  {
    var q': Queues := Enqueued(q, w);
    var t' := WithPhase(threads, c, Queued);
    var d := w.destination;
    forall e, v | e in q' && v in q'[e]
      ensures v == Waiting(v.component, v.source, e, None, false, None)
      ensures v.component in t' && t'[v.component] == Thread(v.source, Some(e), Queued)
    {
      if !(e == d && v == w) { assert v in q[e]; }
    }
    DistinctAppend(q[d], w);
    assert q'[d][|q[d]|] == w;
  }

  /** A change of the phase of a thread that does not wait, to one that does not. */
  lemma QueuesMatchPhase(q: Queues, threads: map<Component, Thread>, c: Component, phase: Phase)
    requires QueuesMatch(q, threads) && c in threads && threads[c].phase != Queued && phase != Queued
    ensures QueuesMatch(q, WithPhase(threads, c, phase))
  {
  }

  lemma QueuesMatchHead(q: Queues, threads: map<Component, Thread>, d: Device, phase: Phase)
    requires QueuesMatch(q, threads) && d in q && q[d] != [] && phase != Queued
    ensures q[d][0].component in threads && threads[q[d][0].component].phase == Queued
    ensures QueuesMatch(q[d := q[d][1..]], WithPhase(threads, q[d][0].component, phase))
  {
    var h := q[d][0];
    assert h in q[d];
    assert Distinct(q[d]);
    var q': Queues := q[d := q[d][1..]];
    var t' := WithPhase(threads, h.component, phase);
    forall e, v | e in q' && v in q'[e]
      ensures v in q[e] && v.component != h.component
    {
      if e == d {
        var i :| 0 <= i < |q'[d]| && q'[d][i] == v;
        assert q[d][i + 1] == v;
      }
    }
    assert Distinct(q[d]);
    DistinctTail(q[d]);
    forall c | c in t' && t'[c].phase == Queued
      ensures t'[c].destination.Some? && t'[c].destination.value in q'
      ensures TransferOf(c, t'[c]) in q'[t'[c].destination.value]
    {
      var w := TransferOf(c, t'[c]);
      assert w in q[w.destination];
      if w.destination == d {
        var i :| 0 <= i < |q[d]| && q[d][i] == w;
        assert q'[d][i - 1] == w;
      }
    }
  }

  lemma QueuesMatchRelease(q: Queues, threads: map<Component, Thread>, cs: set<Component>)
    requires QueuesMatch(q, threads)
    ensures QueuesMatch(WithoutAll(q, cs), AllCycling(threads, cs))
  {
    forall d | d in q ensures Distinct(Without(q[d], cs)) { WithoutDistinct(q[d], cs); }
    ReleaseQueuedWait(q, threads, cs);
    ReleaseWaitersQueued(q, threads, cs);
  }

  lemma ReleaseQueuedWait(q: Queues, threads: map<Component, Thread>, cs: set<Component>)
    requires QueuedWait(q, threads)
    ensures QueuedWait(WithoutAll(q, cs), AllCycling(threads, cs))
  {
    forall d, w | d in q && w in Without(q[d], cs) ensures w in q[d] && w.component !in cs {
      WithoutMembers(q[d], cs);
    }
  }

  lemma ReleaseWaitersQueued(q: Queues, threads: map<Component, Thread>, cs: set<Component>)
    requires WaitersQueued(q, threads)
    ensures WaitersQueued(WithoutAll(q, cs), AllCycling(threads, cs))
  {
    var t' := AllCycling(threads, cs);
    forall c | c in t' && t'[c].phase == Queued
      ensures t'[c].destination.Some? && t'[c].destination.value in q
      ensures TransferOf(c, t'[c]) in Without(q[t'[c].destination.value], cs)
    {
      assert c !in cs && t'[c] == threads[c];
      WithoutMembers(q[t'[c].destination.value], cs);
    }
  }

  lemma {:induction false} WithoutDistinct(ws: seq<Waiting>, cs: set<Component>)
    requires Distinct(ws)
    ensures Distinct(Without(ws, cs))
  {
    if ws != [] {
      DistinctTail(ws);
      WithoutDistinct(ws[1..], cs);
      if ws[0].component !in cs {
        var rest := Without(ws[1..], cs);
        WithoutMembers(ws[1..], cs);
        forall j | 0 <= j < |rest| ensures rest[j].component != ws[0].component {
          assert rest[j] in ws[1..];
        }
        assert Without(ws, cs) == [ws[0]] + rest;
      }
    }
  }

  lemma DistinctTail(ws: seq<Waiting>)
    requires Distinct(ws) && ws != []
    ensures Distinct(ws[1..]) && forall w :: w in ws[1..] ==> w.component != ws[0].component
  {
  }

  lemma DistinctAppend(ws: seq<Waiting>, w: Waiting)
    requires Distinct(ws) && forall v :: v in ws ==> v.component != w.component
    ensures Distinct(ws + [w])
  {
  }

  // The parts of the invariant one at a time.

  lemma MonitorsUpdate(monitors: map<Device, Monitor>, d: Device, m: Monitor)
    requires MonitorsValid(monitors) && MonitorValid(m)
    ensures MonitorsValid(monitors[d := m])
  {
  }

  lemma IdleUpdate(monitors: map<Device, Monitor>, q: Queues, d: Device, m: Monitor)
    requires NothingIdle(monitors, q) && d in monitors && d in q
    requires q[d] == [] || Exhausted(m)
    ensures NothingIdle(monitors[d := m], q)
  {
  }

  lemma ThreadsPhase(devices: set<Device>, threads: map<Component, Thread>, cycling: set<Component>,
                     c: Component, phase: Phase)
    requires ThreadsValid(devices, threads, cycling) && c in threads
    requires ThreadValid(devices, threads[c].(phase := phase), c in cycling)
    ensures ThreadsValid(devices, WithPhase(threads, c, phase), cycling)
  {
  }

  /** One monitor changes, and one thread that does not wait moves on to another phase. */
  lemma MonitorAndPhase(s: State, d: Device, m: Monitor, c: Component, phase: Phase)
    requires Inv(s) && d in s.monitors && MonitorValid(m) && (s.queues[d] == [] || Exhausted(m))
    requires c in s.threads && s.threads[c].phase != Queued && phase != Queued
    requires ThreadValid(s.monitors.Keys, s.threads[c].(phase := phase), c in s.inCycle)
    ensures Inv(s.(monitors := s.monitors[d := m], threads := WithPhase(s.threads, c, phase)))
  {
    hide WaitingValid;
    MonitorsUpdate(s.monitors, d, m);
    IdleUpdate(s.monitors, s.queues, d, m);
    ThreadsPhase(s.monitors.Keys, s.threads, s.inCycle.Keys, c, phase);
    QueuesMatchPhase(s.queues, s.threads, c, phase);
    assert s.monitors[d := m].Keys == s.monitors.Keys;
  }

  lemma AfterReserveValid(devices: set<Device>, t: Thread)
    requires ThreadValid(devices, t, false) && t.destination.Some?
    ensures ThreadValid(devices, t.(phase := AfterReserve(t)), false) && AfterReserve(t) != Queued
  {
  }

  lemma ReserveKeeps(s: State, c: Component, path: seq<Waiting>)
    requires Inv(s) && Enabled(s, Reserve(c, path))
    ensures Inv(ReserveStep(s, c, path))
  {
    var d := s.threads[c].destination.value;
    var m := s.monitors[d];
    var w := NewWaiting(s, c);
    AfterReserveValid(s.monitors.Keys, s.threads[c]);
    if m.availableSlots > 0 {
      assert forall i :: i in m.free[1..] ==> i in m.free;
      MonitorAndPhase(s, d, TakeSlot(m, c), c, AfterReserve(s.threads[c]));
    } else if path != [] {
      ReleaseKeeps(s, c, path);
    } else if m.future != [] {
      MonitorAndPhase(s, d, ClaimFuture(m, c), c, AfterReserve(s.threads[c]));
    } else {
      QueueKeeps(s, c);
    }
  }

  lemma QueueKeeps(s: State, c: Component)
    requires Inv(s) && Enabled(s, Reserve(c, []))
    requires Exhausted(s.monitors[s.threads[c].destination.value])
    ensures Inv(s.(queues := Enqueued(s.queues, NewWaiting(s, c)), threads := WithPhase(s.threads, c, Queued)))
  {
    var w := NewWaiting(s, c);
    OneMoreWaiting(s.queues, w);
    hide WaitingValid;
    QueuesMatchAdd(s.queues, s.threads, c, w);
    ThreadsPhase(s.monitors.Keys, s.threads, s.inCycle.Keys, c, Queued);
    assert Enqueued(s.queues, w).Keys == s.queues.Keys;
  }

  /** Without a cycle the new transfer's destination is not reachable from its source. */
  lemma NoCycleNoPath(q: Queues, w: Waiting)
    requires QueuesValid(q) && w.destination in q && w in q[w.destination] && w.source != Some(w.destination)
    requires !exists p :: ClosesCycle(q, w, p)
    ensures w.source.Some? ==> !Leq(WaitGraph(q), w.source.value, w.destination)
  {
    if w.source.Some? && Leq(WaitGraph(q), w.source.value, w.destination) {
      var p := CycleFromPath(q, w);
      assert false;
    }
  }

  // Facts about a released cycle.

  lemma CycleMembers(q: Queues, w: Waiting, path: seq<Waiting>)
    requires ClosesCycle(q, w, path)
    ensures forall v :: v in [w] + path ==> v.destination in q && v in q[v.destination] && v.source.Some?
  {
    var all := [w] + path;
    forall v | v in all ensures v.destination in q && v in q[v.destination] && v.source.Some? {
      var i :| 0 <= i < |all| && all[i] == v;
    }
  }

  lemma {:induction false} ReleasedMapKeys(inCycle: map<Component, Waiting>, path: seq<Waiting>, n: nat)
    requires n <= |path|
    ensures ReleasedMap(inCycle, path, n).Keys == inCycle.Keys + Components(path[..n])
  {
    if n > 0 {
      ReleasedMapKeys(inCycle, path, n - 1);
      assert path[..n] == path[..n - 1] + [path[n - 1]];
      assert Components(path[..n]) == Components(path[..n - 1]) + {path[n - 1].component} by {
        assert forall v :: v in path[..n] <==> v in path[..n - 1] || v == path[n - 1];
      }
    }
  }

  /** The transfers found by the search were waiting before, and are not the new one. */
  lemma ReleaseMembers(q: Queues, w: Waiting, path: seq<Waiting>)
    requires w.destination in q && ClosesCycle(Enqueued(q, w), w, path)
    ensures forall v :: v in path ==> v.destination in q && v in q[v.destination]
  {
    CycleMembers(Enqueued(q, w), w, path);
    var all := [w] + path;
    forall v | v in path ensures v in q[v.destination] {
      assert v in all;
      var i :| 0 <= i < |path| && path[i] == v;
      assert all[0].source != all[i + 1].source;
    }
  }

  lemma ReleaseThreads(devices: set<Device>, threads: map<Component, Thread>, cycling: set<Component>, cs: set<Component>)
    requires ThreadsValid(devices, threads, cycling)
    requires forall c :: c in cs ==> c in threads && threads[c].source.Some? && threads[c].destination.Some?
    ensures ThreadsValid(devices, AllCycling(threads, cs), cycling + cs)
  {
  }

  lemma ReleaseKnown(s: State, w: Waiting, path: seq<Waiting>)
    requires Inv(s) && w.destination in s.queues && ClosesCycle(Enqueued(s.queues, w), w, path)
    requires w.component in s.threads && s.threads[w.component].source == w.source
    requires s.threads[w.component].destination == Some(w.destination)
    ensures forall x :: x in Components([w] + path) ==>
      x in s.threads && s.threads[x].source.Some? && s.threads[x].destination.Some?
  {
    hide WaitingValid, ThreadsValid, ClosesCycle, Distinct;
    ReleaseMembers(s.queues, w, path);
    CycleMembers(Enqueued(s.queues, w), w, path);
    forall x | x in Components([w] + path)
      ensures x in s.threads && s.threads[x].source.Some? && s.threads[x].destination.Some?
    {
      var v :| v in [w] + path && v.component == x;
      if v != w { assert v in path; }
    }
  }

  lemma ReleaseKeeps(s: State, c: Component, path: seq<Waiting>)
    requires Inv(s) && Enabled(s, Reserve(c, path)) && path != []
    requires s.monitors[s.threads[c].destination.value].availableSlots <= 0
    ensures Inv(ReserveStep(s, c, path))
  {
    hide ThreadsValid, QueuesMatch, WaitingValid, ClosesCycle, MonitorValid;
    var w := NewWaiting(s, c);
    var all := [w] + path;
    ReleaseKnown(s, w, path);
    assert w in all;
    ReleaseQueues(s.queues, w, Components(all));
    assert all[..|all|] == all;
    ReleasedMapKeys(s.inCycle, all, |all|);
    ReleaseInv(s, Components(all), ReleasedMap(s.inCycle, all, |all|));
  }

  lemma ReleaseInv(s: State, cs: set<Component>, inCycle: map<Component, Waiting>)
    requires Inv(s) && inCycle.Keys == s.inCycle.Keys + cs
    requires forall c :: c in cs ==> c in s.threads && s.threads[c].source.Some? && s.threads[c].destination.Some?
    ensures Inv(State(s.monitors, WithoutAll(s.queues, cs), inCycle, AllCycling(s.threads, cs)))
  {
    forall d, w | d in s.queues && w in Without(s.queues[d], cs) ensures w in s.queues[d] {
      WithoutMembers(s.queues[d], cs);
    }
    FewerWaiting(s.queues, WithoutAll(s.queues, cs));
    hide WaitingValid;
    QueuesMatchRelease(s.queues, s.threads, cs);
    ReleaseThreads(s.monitors.Keys, s.threads, s.inCycle.Keys, cs);
  }

  lemma ReleaseQueues(q: Queues, w: Waiting, cs: set<Component>)
    requires w.destination in q && w.component in cs
    ensures WithoutAll(Enqueued(q, w), cs) == WithoutAll(q, cs)
  {
    WithoutConcat(q[w.destination], [w], cs);
    WithoutOne(w, cs);
    assert Without(q[w.destination] + [w], cs) == Without(q[w.destination], cs);
  }

  lemma WithoutOne(w: Waiting, cs: set<Component>)
    requires w.component in cs
    ensures Without([w], cs) == []
  {
    assert [w][1..] == [];
  }

  lemma {:induction false} WithoutConcat(a: seq<Waiting>, b: seq<Waiting>, cs: set<Component>)
    ensures Without(a + b, cs) == Without(a, cs) + Without(b, cs)
  {
    if a == [] {
      assert a + b == b;
    } else {
      assert (a + b)[1..] == a[1..] + b;
      WithoutConcat(a[1..], b, cs);
    }
  }

  lemma SignalKeeps(s: State, c: Component)
    requires Inv(s) && Enabled(s, Signal(c))
    ensures Inv(SignalStep(s, c))
  {
    SignalReady(s, c);
    var d := s.threads[c].source.value;
    var m := s.monitors[d];
    var m' := m.(future := m.future + [FindIndex(m.slots, c)]);
    if s.queues[d] == [] {
      MonitorAndPhase(s, d, m', c, ToRemove);
    } else {
      // the slot just announced is the only one, and is claimed at once
      var h := s.queues[d][0].component;
      assert ClaimFuture(m', h).future == [];
      MonitorAndPhase(s, d, ClaimFuture(m', h), c, ToRemove);
      WakeKeeps(s.(monitors := s.monitors[d := ClaimFuture(m', h)], threads := WithPhase(s.threads, c, ToRemove)), d);
    }
  }

  lemma HeadWaits(s: State, d: Device)
    requires Inv(s) && d in s.queues && s.queues[d] != []
    ensures var h := s.queues[d][0].component;
      && h in s.threads && h !in s.inCycle && s.threads[h].phase == Queued && s.threads[h].destination.Some?
      && ThreadValid(s.monitors.Keys, s.threads[h], false)
  {
    assert s.queues[d][0] in s.queues[d];
  }

  /** The longest waiting transfer of d leaves the queue. */
  lemma WakeKeeps(s: State, d: Device)
    requires Inv(s) && d in s.queues && s.queues[d] != []
    ensures s.queues[d][0].component in s.threads
    ensures var h := s.queues[d][0].component;
      Inv(s.(queues := s.queues[d := s.queues[d][1..]],
             threads := WithPhase(s.threads, h, AfterReserve(s.threads[h]))))
  {
    hide ThreadsValid, ThreadValid, QueuesMatch, WaitingValid, AfterReserve, MonitorsValid;
    var h := s.queues[d][0].component;
    HeadWaits(s, d);
    AfterReserveValid(s.monitors.Keys, s.threads[h]);
    QueuesMatchHead(s.queues, s.threads, d, AfterReserve(s.threads[h]));
    FewerWaiting(s.queues, s.queues[d := s.queues[d][1..]]);
    ThreadsPhase(s.monitors.Keys, s.threads, s.inCycle.Keys, h, AfterReserve(s.threads[h]));
  }

  lemma VacateValid(m: Monitor, i: nat, woken: Component, slot: nat)
    requires MonitorValid(m) && i < |m.slots| && (i !in m.future && m.awaited[i] ==> slot < |m.slots|)
    ensures MonitorValid(Vacate(m, i, woken, slot))
    ensures Exhausted(m) ==> Exhausted(Vacate(m, i, woken, slot))
  {
  }

  lemma RemoveReady(s: State, c: Component, woken: Component)
    requires Inv(s) && Enabled(s, Remove(c, woken))
    ensures c in s.threads && s.threads[c].phase == ToRemove && c !in s.inCycle
    ensures s.threads[c].source.Some? && s.threads[c].source.value in s.monitors
    ensures var m := s.monitors[s.threads[c].source.value]; var i := FindIndex(m.slots, c);
      && MonitorValid(m) && 0 <= i
      && (i in m.future ==> s.queues[s.threads[c].source.value] == [])
      && (i !in m.future && m.awaited[i] ==>
            woken in s.threads && woken != c && woken !in s.inCycle && s.threads[woken].phase.AwaitSlot?
            && s.threads[woken].phase.slot < |m.slots|)
    ensures ThreadValid(s.monitors.Keys, s.threads[c].(phase := AfterRemove(s.threads[c])), false)
    ensures woken in s.threads && woken !in s.inCycle ==>
              ThreadValid(s.monitors.Keys, s.threads[woken].(phase := ToFinish), false)
  {
  }

  lemma RemoveKeeps(s: State, c: Component, woken: Component)
    requires Inv(s) && Enabled(s, Remove(c, woken))
    ensures Inv(RemoveStep(s, c, woken))
  {
    RemoveReady(s, c, woken);
    hide Enabled, ThreadsValid, QueuesMatch, WaitingValid, ThreadValid;
    var d := s.threads[c].source.value;
    var m := s.monitors[d];
    var i := FindIndex(m.slots, c);
    var phase := AfterRemove(s.threads[c]);
    var m' := Vacate(m, i, woken, WokenSlot(s, woken));
    VacateValid(m, i, woken, WokenSlot(s, woken));
    MonitorAndPhase(s, d, m', c, phase);
    if i !in m.future && m.awaited[i] {
      var t := s.(monitors := s.monitors[d := m'], threads := WithPhase(s.threads, c, phase));
      PhaseOnly(t, woken, ToFinish);
    }
  }

  lemma PhaseOnly(s: State, c: Component, phase: Phase)
    requires Inv(s) && c in s.threads && s.threads[c].phase != Queued && phase != Queued
    requires ThreadValid(s.monitors.Keys, s.threads[c].(phase := phase), c in s.inCycle)
    ensures Inv(s.(threads := WithPhase(s.threads, c, phase)))
  {
    hide WaitingValid;
    ThreadsPhase(s.monitors.Keys, s.threads, s.inCycle.Keys, c, phase);
    QueuesMatchPhase(s.queues, s.threads, c, phase);
  }

  lemma AddKeeps(s: State, c: Component)
    requires Inv(s) && Enabled(s, Add(c))
    ensures Inv(AddStep(s, c))
  {
    var d := s.threads[c].destination.value;
    var m := s.monitors[d];
    MonitorAndPhase(s, d, Enter(m, c), c, AfterEnter(m, c));
  }

  lemma AddReady(s: State, c: Component)
    requires Enabled(s, Add(c))
    ensures c in s.threads && s.threads[c].destination.Some? && s.threads[c].destination.value in s.monitors
    ensures var m := s.monitors[s.threads[c].destination.value];
      c in m.reserved ==> 0 <= m.reserved[c] < |m.slots| == |m.awaited|
  {
  }

  lemma AddInCycleReady(s: State, c: Component)
    requires Enabled(s, AddInCycle(c))
    ensures c in s.threads && s.threads[c].phase == Cycling && s.threads[c].destination.Some? && s.threads[c].destination.value in s.monitors
    ensures c in s.inCycle && s.inCycle[c].fifth.Some?
    ensures FindIndex(s.monitors[s.threads[c].destination.value].slots, s.inCycle[c].fifth.value) >= 0
  {
  }

  lemma DropThread(s: State, c: Component)
    requires Inv(s) && c in s.threads && s.threads[c].phase != Queued
    ensures Inv(s.(inCycle := s.inCycle - {c}, threads := s.threads - {c}))
  {
    hide WaitingValid;
  }

  lemma CyclingValid(s: State, c: Component)
    requires Inv(s) && c in s.threads && s.threads[c].phase == Cycling
    ensures c in s.inCycle && ThreadValid(s.monitors.Keys, s.threads[c].(phase := Cycling), true)
    ensures s.threads[c].destination.Some? && s.threads[c].destination.value in s.monitors
    ensures var d := s.threads[c].destination.value;
      MonitorValid(s.monitors[d]) && (s.queues[d] == [] || Exhausted(s.monitors[d]))
  {
  }

  lemma AddInCycleKeeps(s: State, c: Component)
    requires Inv(s) && Enabled(s, AddInCycle(c))
    ensures Inv(AddInCycleStep(s, c))
  {
    hide Enabled, ThreadsValid, QueuesMatch, WaitingValid, FindIndex, NothingIdle;
    AddInCycleReady(s, c);
    CyclingValid(s, c);
    var d := s.threads[c].destination.value;
    var s' := AddInCycleStep(s, c);
    MonitorAndPhase(s, d, s'.monitors[d], c, Cycling);
    DropThread(s.(monitors := s'.monitors, threads := WithPhase(s.threads, c, Cycling)), c);
    assert WithPhase(s.threads, c, Cycling) - {c} == s'.threads;
  }

  lemma BeginQueues(q: Queues, threads: map<Component, Thread>, c: Component, t: Thread)
    requires QueuesMatch(q, threads) && c !in threads && t.phase != Queued
    ensures QueuesMatch(q, threads[c := t])
  {
    hide Distinct;
  }

  lemma BeginKeeps(s: State, c: Component, source: Option<Device>, destination: Option<Device>)
    requires Inv(s) && Enabled(s, Begin(c, source, destination))
    ensures Inv(Step(s, Begin(c, source, destination)))
  {
    hide WaitingValid, QueuesMatch, MonitorsValid, NothingIdle;
    BeginQueues(s.queues, s.threads, c, Thread(source, destination, if destination.Some? then ToReserve else ToSignal));
  }

  lemma StepKeeps(s: State, e: Event)
    requires Inv(s) && Enabled(s, e)
    ensures Inv(Step(s, e))
  {
    match e
    case Begin(c, source, destination) => BeginKeeps(s, c, source, destination);
    case Reserve(c, path) => ReserveKeeps(s, c, path);
    case Signal(c) => SignalKeeps(s, c);
    case Remove(c, woken) => RemoveKeeps(s, c, woken);
    case Add(c) => AddKeeps(s, c);
    case AddInCycle(c) => AddInCycleKeeps(s, c);
    case Finish(c) =>
      DropThread(s, c);
      assert s.inCycle - {c} == s.inCycle;
  }

  // ----- runs

  function InitialMonitor(capacity: nat, components: seq<Component>): Monitor
    requires |components| <= capacity
  {
    var size := |components|;
    Monitor(capacity - size, seq(capacity - size, i requires i >= 0 => size + i),
            seq(capacity, i requires 0 <= i < capacity => if i < size then Some(components[i]) else None),
            [], seq(capacity, i => false), map[])
  }

  /** No transfer has begun; each device holds at most as many components as it has slots. */
  ghost predicate Initial(s: State) {
    && s.queues.Keys == s.monitors.Keys && s.inCycle == map[] && s.threads == map[]
    && (forall d :: d in s.queues ==> s.queues[d] == [])
    && (forall d :: d in s.monitors ==>
          exists capacity, components :: |components| <= capacity && s.monitors[d] == InitialMonitor(capacity, components))
  }

  /** A run: every step is enabled where it is taken. */
  ghost predicate Run(states: seq<State>, events: seq<Event>) {
    && |states| == |events| + 1 && Initial(states[0])
    && (forall i :: 0 <= i < |events| ==>
          Enabled(states[i], events[i]) && states[i + 1] == Step(states[i], events[i]))
  }

  lemma InitialInv(s: State)
    requires Initial(s)
    ensures Inv(s)
  {
    var g := WaitGraph(s.queues);
    assert forall a, b :: !Edge(g, a, b);
  }

  lemma {:induction false} RunInv(states: seq<State>, events: seq<Event>, n: nat)
    requires Run(states, events) && n < |states|
    ensures Inv(states[n])
  {
    if n == 0 {
      InitialInv(states[0]);
    } else {
      RunInv(states, events, n - 1);
      StepKeeps(states[n - 1], events[n - 1]);
    }
  }

  /** Transfer i of c waits for the device that the next one, cyclically, would leave. */
  ghost predicate WaitsForNext(q: Queues, c: seq<Waiting>, i: nat)
    requires i < |c|
  {
    var next := c[if i + 1 == |c| then 0 else i + 1];
    c[i].destination in q && c[i] in q[c[i].destination] && next.source == Some(c[i].destination)
  }

  /** A cycle among the waiting transfers. */
  ghost predicate WaitingCycle(q: Queues, c: seq<Waiting>) {
    c != [] && forall i :: 0 <= i < |c| ==> WaitsForNext(q, c, i)
  }

  lemma WaitingEdge(q: Queues, c: seq<Waiting>, i: nat)
    requires WaitingValid(q) && WaitingCycle(q, c) && i < |c|
    requires forall d, w :: d in q && w in q[d] ==> !w.latched
    ensures c[i].source.Some? && Edge(WaitGraph(q), c[i].destination, c[i].source.value)
    ensures Leq(WaitGraph(q), c[i].destination, c[i].source.value)
  {
    assert WaitsForNext(q, c, i) && WaitsForNext(q, c, if i == 0 then |c| - 1 else i - 1);
    WaitGraphClosed(q);
    assert Edge(WaitGraph(q), c[i].destination, c[i].source.value);
    LeqEdge(WaitGraph(q), c[i].destination, c[i].source.value);
  }

  /** From the destination of the last transfer to the source of any transfer of the cycle. */
  lemma {:induction false} CycleWalk(q: Queues, c: seq<Waiting>, i: nat)
    requires WaitingValid(q) && WaitingCycle(q, c) && i < |c|
    requires forall d, w :: d in q && w in q[d] ==> !w.latched
    ensures c[i].source.Some? && Leq(WaitGraph(q), c[|c| - 1].destination, c[i].source.value)
    decreases |c| - i
  {
    WaitingEdge(q, c, i);
    if i < |c| - 1 {
      CycleWalk(q, c, i + 1);
      assert WaitsForNext(q, c, i);
      LeqTrans(WaitGraph(q), c[|c| - 1].destination, c[i + 1].source.value, c[i].source.value);
    }
  }

  lemma NoWaitingCycle(q: Queues, c: seq<Waiting>)
    requires WaitingValid(q)
    requires forall d, w :: d in q && w in q[d] ==> !w.latched
    ensures !WaitingCycle(q, c)
  {
    if WaitingCycle(q, c) {
      WaitingEdge(q, c, 0);
      assert WaitsForNext(q, c, 0) && WaitsForNext(q, c, |c| - 1);
      CycleWalk(q, c, if |c| == 1 then 0 else 1);
    }
  }

  /** Whenever the mutex is free, in every run: the waiting transfers form no cycle, and a
      device somebody waits for has no free slot and no unclaimed announced slot. */
  lemma AlwaysSafe(states: seq<State>, events: seq<Event>, n: nat)
    requires Run(states, events) && n < |states|
    ensures !exists c :: WaitingCycle(states[n].queues, c)
    ensures forall d :: d in states[n].queues && states[n].queues[d] != [] ==>
      d in states[n].monitors && states[n].monitors[d].availableSlots == 0
      && states[n].monitors[d].free == [] && states[n].monitors[d].future == []
  {
    RunInv(states, events, n);
    forall c ensures !WaitingCycle(states[n].queues, c) { NoWaitingCycle(states[n].queues, c); }
  }
}
