/** In which order waiting transfers and free slots are served: first come, first served, except
    for the members of a cycle that is released; and always the least free slot. */
module TransferOrder {
  import opened ComponentTransfers
  import opened Prelude
  import opened TransferCycles

  // ----- first come, first served

  /** Both wait for the device, v since before w. */
  ghost predicate Before(q: seq<Waiting>, v: Component, w: Component) {
    exists i, j :: 0 <= i < j < |q| && q[i].component == v && q[j].component == w
  }

  ghost predicate Ahead(s: State, d: Device, v: Component, w: Component) {
    d in s.queues && Before(s.queues[d], v, w)
  }

  predicate Waits(s: State, v: Component) { v in s.threads && s.threads[v].phase == Queued }

  predicate Cycles(s: State, w: Component) { w in s.threads && s.threads[w].phase == Cycling }

  lemma {:induction false} WithoutHas(q: seq<Waiting>, cs: set<Component>, w: Component)
    requires w !in cs && exists j :: 0 <= j < |q| && q[j].component == w
    ensures exists j :: 0 <= j < |Without(q, cs)| && Without(q, cs)[j].component == w
  {
    var j :| 0 <= j < |q| && q[j].component == w;
    var r, rest := Without(q, cs), Without(q[1..], cs);
    if j == 0 {
      assert r[0].component == w;
    } else {
      assert q[1..][j - 1].component == w;
      WithoutHas(q[1..], cs, w);
      var k :| 0 <= k < |rest| && rest[k].component == w;
      assert r[if q[0].component in cs then k else k + 1].component == w;
    }
  }

  lemma {:induction false} WithoutOrder(q: seq<Waiting>, cs: set<Component>, v: Component, w: Component)
    requires Before(q, v, w) && v !in cs && w !in cs
    ensures Before(Without(q, cs), v, w)
  {
    var i, j :| 0 <= i < j < |q| && q[i].component == v && q[j].component == w;
    var r, rest := Without(q, cs), Without(q[1..], cs);
    if i == 0 {
      assert q[1..][j - 1].component == w;
      WithoutHas(q[1..], cs, w);
      var k :| 0 <= k < |rest| && rest[k].component == w;
      assert r[0].component == v && r[k + 1].component == w;
    } else {
      assert q[1..][i - 1].component == v && q[1..][j - 1].component == w;
      WithoutOrder(q[1..], cs, v, w);
      var k, l :| 0 <= k < l < |rest| && rest[k].component == v && rest[l].component == w;
      var before := if q[0].component in cs then 0 else 1;
      assert r[k + before].component == v && r[l + before].component == w;
    }
  }

  lemma AppendOrder(q: seq<Waiting>, x: Waiting, v: Component, w: Component)
    requires Before(q, v, w)
    ensures Before(q + [x], v, w)
  {
    var i, j :| 0 <= i < j < |q| && q[i].component == v && q[j].component == w;
    assert (q + [x])[i].component == v && (q + [x])[j].component == w;
  }

  lemma TailOrder(q: seq<Waiting>, v: Component, w: Component)
    requires Before(q, v, w) && q[0].component != v
    ensures Before(q[1..], v, w)
  {
    var i, j :| 0 <= i < j < |q| && q[i].component == v && q[j].component == w;
    assert q[1..][i - 1].component == v && q[1..][j - 1].component == w;
  }

  lemma ReserveOrder(s: State, c: Component, path: seq<Waiting>, d: Device, v: Component, w: Component)
    requires Enabled(s, Reserve(c, path)) && Ahead(s, d, v, w) && c != v && v in s.threads && w in s.threads
    requires var t := ReserveStep(s, c, path); Waits(t, v) && !Cycles(t, w)
    ensures Ahead(ReserveStep(s, c, path), d, v, w)
  {
    hide Without, Before, ReleasedMap, ClosesCycle;
    var e, x := s.threads[c].destination.value, NewWaiting(s, c);
    var all := [x] + path;
    if s.monitors[e].availableSlots <= 0 {
      if d == e { AppendOrder(s.queues[d], x, v, w); }
      if path != [] { WithoutOrder(Enqueued(s.queues, x)[d], Components(all), v, w); }
    }
  }

  lemma SignalOrder(s: State, c: Component, d: Device, v: Component, w: Component)
    requires Inv(s) && Enabled(s, Signal(c)) && Ahead(s, d, v, w) && Waits(SignalStep(s, c), v)
    ensures Ahead(SignalStep(s, c), d, v, w)
  {
    hide WaitingValid, ThreadsValid, Before;
    SignalReady(s, c);
    var e := s.threads[c].source.value;
    if s.queues[e] != [] && d == e { TailOrder(s.queues[d], v, w); }
  }

  /** One step: w stays behind v as long as v waits and w is not released in a cycle. */
  lemma StepOrder(s: State, e: Event, d: Device, v: Component, w: Component)
    requires Inv(s) && Enabled(s, e) && Ahead(s, d, v, w) && Waits(Step(s, e), v) && !Cycles(Step(s, e), w)
    ensures Ahead(Step(s, e), d, v, w)
  {
    hide WaitingValid, ThreadsValid, Before, ReserveStep, SignalStep;
    QueuedThreads(s, d, v, w);
    match e
    case Reserve(c, path) => ReserveOrder(s, c, path, d, v, w);
    case Signal(c) => SignalOrder(s, c, d, v, w);
    case _ =>
  }

  lemma QueuedThreads(s: State, d: Device, v: Component, w: Component)
    requires Inv(s) && Ahead(s, d, v, w)
    ensures Waits(s, v) && Waits(s, w)
  {
    hide WaitingValid, ThreadsValid;
    var i, j :| 0 <= i < j < |s.queues[d]| && s.queues[d][i].component == v && s.queues[d][j].component == w;
    assert s.queues[d][i] in s.queues[d] && s.queues[d][j] in s.queues[d];
  }

  /** A transfer begins to wait by a reservation, which puts it at the end of the queue. */
  lemma BeginsToWait(s: State, e: Event, w: Component)
    requires Inv(s) && Enabled(s, e) && !Waits(s, w) && Waits(Step(s, e), w)
    ensures e.Reserve? && e.c == w && Step(s, e).queues == Enqueued(s.queues, NewWaiting(s, w))
    ensures Step(s, e).threads == WithPhase(s.threads, w, Queued)
  {
    hide Inv, ReleasedMap, ClosesCycle, Without;
    if e.Signal? && s.queues[s.threads[e.c].source.value] != [] { HeadWaits(s, s.threads[e.c].source.value); }
  }

  /** Whoever begins to wait does so behind all that wait for the device already. */
  lemma JoinsLast(s: State, e: Event, d: Device, v: Component, w: Component)
    requires Inv(s) && Enabled(s, e) && d in s.queues && Waits(s, v) && !Waits(s, w)
    requires Waits(Step(s, e), v) && Waits(Step(s, e), w)
    requires s.threads[v].destination == Some(d) && Step(s, e).threads[w].destination == Some(d)
    ensures Ahead(Step(s, e), d, v, w)
  {
    BeginsToWait(s, e, w);
    hide WaitingValid, ThreadsValid, ReleasedMap, ClosesCycle, Step, Enabled;
    var q := s.queues[d];
    assert TransferOf(v, s.threads[v]) in q;
    var i :| 0 <= i < |q| && q[i].component == v;
    var q' := q + [NewWaiting(s, w)];
    assert q'[i].component == v && q'[|q|].component == w;
  }

  /** Along every run: as long as v waits, w, which came later, is not served before it unless it
      is released in a cycle. */
  lemma {:induction false} FirstServed(states: seq<State>, events: seq<Event>, n: nat, k: nat, d: Device,
                                      v: Component, w: Component)
    requires Run(states, events) && n <= k < |states| && Ahead(states[n], d, v, w)
    requires forall j :: n <= j <= k ==> Waits(states[j], v) && !Cycles(states[j], w)
    ensures Ahead(states[k], d, v, w)
    decreases k
  {
    hide Enabled, Step, Initial, Ahead;
    if n < k {
      FirstServed(states, events, n, k - 1, d, v, w);
      RunInv(states, events, k - 1);
      assert states[k - 1 + 1] == Step(states[k - 1], events[k - 1]);
      StepOrder(states[k - 1], events[k - 1], d, v, w);
    }
  }

  // ----- the least free slot

  predicate Ascending(free: seq<nat>) { forall i, j :: 0 <= i < j < |free| ==> free[i] <= free[j] }

  ghost predicate AllAscending(s: State) { forall d :: d in s.monitors ==> Ascending(s.monitors[d].free) }

  lemma {:induction false} InsertedAscending(free: seq<nat>, x: nat)
    requires Ascending(free)
    ensures Ascending(InsertSorted(free, x))
  {
    var r := InsertSorted(free, x);
    if free == [] || x <= free[0] {
      assert r == [x] + free;
    } else {
      var rest := InsertSorted(free[1..], x);
      assert Ascending(free[1..]);
      InsertedAscending(free[1..], x);
      assert r == [free[0]] + rest;
      forall k | 0 <= k < |rest| ensures free[0] <= rest[k] { assert rest[k] in rest; }
    }
  }

  lemma StepAscending(s: State, e: Event)
    requires AllAscending(s) && Enabled(s, e)
    ensures AllAscending(Step(s, e))
  {
    hide ReleasedMap, Without, ClosesCycle;
    if e.Remove? {
      var m := s.monitors[s.threads[e.c].source.value];
      InsertedAscending(m.free, FindIndex(m.slots, e.c));
    }
  }

  lemma {:induction false} RunAscending(states: seq<State>, events: seq<Event>, n: nat)
    requires Run(states, events) && n < |states|
    ensures AllAscending(states[n])
  {
    hide Enabled, Step, AllAscending;
    if n == 0 {
      InitialAscending(states[0]);
    } else {
      RunAscending(states, events, n - 1);
      assert states[n - 1 + 1] == Step(states[n - 1], events[n - 1]);
      StepAscending(states[n - 1], events[n - 1]);
    }
  }

  lemma InitialAscending(s: State)
    requires Initial(s)
    ensures AllAscending(s)
  {
  }

  /** Along every run a reservation that finds a free slot takes the least one, for its component. */
  lemma LeastTaken(states: seq<State>, events: seq<Event>, n: nat, c: Component, path: seq<Waiting>)
    requires Run(states, events) && n < |events| && events[n] == Reserve(c, path)
    ensures Enabled(states[n], Reserve(c, path)) && states[n].threads[c].destination.Some?
    ensures var d := states[n].threads[c].destination.value;
      var m, m' := states[n].monitors[d], states[n + 1].monitors[d];
      m.availableSlots > 0 ==>
        exists k ::
          && k in m.free && k < |m.slots| && m'.slots == m.slots[k := Some(c)]
          && forall i :: i in m.free ==> k <= i
  {
    hide Initial, AllAscending;
    RunAscending(states, events, n);
    var d := states[n].threads[c].destination.value;
    var m, m' := states[n].monitors[d], states[n + 1].monitors[d];
    if m.availableSlots > 0 {
      FreeAscending(states[n], d);
      var k := m.free[0];
      assert k in m.free && m'.slots == m.slots[k := Some(c)];
    }
  }

  lemma FreeAscending(s: State, d: Device)
    requires AllAscending(s) && d in s.monitors
    ensures Ascending(s.monitors[d].free)
  {
  }
}
