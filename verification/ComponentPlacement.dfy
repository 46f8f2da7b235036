/** Where components are. The slots of the devices, followed through every step: what a transfer
    does to them, and that along a run every component is exactly where its transfer says, as
    long as transfers begin with a component that is in one slot of its source, or in none. */
module ComponentPlacement {
  import opened ComponentTransfers
  import opened Prelude
  import opened TransferCycles

  predicate Listed(s: State, d: Device, c: Component) { d in s.monitors && Some(c) in s.monitors[d].slots }

  // ----- what one step does to the slots

  /** An addition to a claimed slot that is empty puts the component there, and changes no other
      slot; while the slot is taken nothing changes and the component waits for it; a component
      that claimed no slot has one already. */
  lemma AddPlaces(s: State, c: Component)
    requires Enabled(s, Add(c))
    ensures var d := s.threads[c].destination.value;
      var m, m', t' := s.monitors[d], Step(s, Add(c)).monitors[d], Step(s, Add(c)).threads[c];
      && |m'.slots| == |m.slots|
      && (forall e :: e in s.monitors && e != d ==>
            e in Step(s, Add(c)).monitors && Step(s, Add(c)).monitors[e] == s.monitors[e])
      && (c !in m.reserved ==> m'.slots == m.slots && t'.phase == ToFinish)
      && (c in m.reserved ==>
            var claimed := m.reserved[c];
            && c !in m'.reserved
            && (m.slots[claimed].None? ==>
                  t'.phase == ToFinish && m'.slots[claimed] == Some(c)
                  && forall i :: 0 <= i < |m.slots| && i != claimed ==> m'.slots[i] == m.slots[i])
            && (m.slots[claimed].Some? ==> t'.phase == AwaitSlot(claimed) && m'.slots == m.slots && m'.awaited[claimed]))
  {
  }

  /** A removal empties the component's slot. At most one other component enters a slot: the one
      that is woken, its own claimed slot. An announced slot that nobody claimed becomes free. */
  lemma RemovePlaces(s: State, c: Component, woken: Component)
    requires Enabled(s, Remove(c, woken))
    ensures var d := s.threads[c].source.value;
      var m, m' := s.monitors[d], Step(s, Remove(c, woken)).monitors[d];
      var i := FindIndex(m.slots, c);
      var wakes := i !in m.future && m.awaited[i];
      && |m'.slots| == |m.slots| && m.slots[i] == Some(c)
      && (forall e :: e in s.monitors && e != d ==>
            e in Step(s, Remove(c, woken)).monitors && Step(s, Remove(c, woken)).monitors[e] == s.monitors[e])
      && (forall k :: 0 <= k < |m.slots| ==>
            m'.slots[k] == if wakes && k == s.threads[woken].phase.slot then Some(woken)
                           else if k == i then None else m.slots[k])
      && (wakes ==> woken != c && Step(s, Remove(c, woken)).threads[woken].phase == ToFinish)
      && (i in m.future <==> m'.availableSlots == m.availableSlots + 1)
      && (i in m.future ==> i in m'.free)
  {
    var m := s.monitors[s.threads[c].source.value];
    InsertedIn(m.free, FindIndex(m.slots, c));
  }

  lemma {:induction false} InsertedIn(free: seq<nat>, i: int)
    ensures i >= 0 ==> i in InsertSorted(free, i) && forall x :: x in free ==> x in InsertSorted(free, i)
  {
    if i >= 0 && free != [] && i > free[0] {
      InsertedIn(free[1..], i);
      assert forall x :: x in free ==> x == free[0] || x in free[1..];
      var r := InsertSorted(free, i);
      assert r == [free[0]] + InsertSorted(free[1..], i);
      assert forall x :: x in InsertSorted(free[1..], i) ==> x in r;
      assert r[0] == free[0];
    }
  }

  /** In a released cycle the component takes exactly the slot of the one it replaces. */
  lemma AddInCyclePlaces(s: State, c: Component)
    requires Enabled(s, AddInCycle(c))
    ensures var d, replaced := s.threads[c].destination.value, s.inCycle[c].fifth.value;
      var m, m' := s.monitors[d], Step(s, AddInCycle(c)).monitors[d];
      && |m'.slots| == |m.slots|
      && (forall e :: e in s.monitors && e != d ==>
            e in Step(s, AddInCycle(c)).monitors && Step(s, AddInCycle(c)).monitors[e] == s.monitors[e])
      && exists i :: 0 <= i < |m.slots| && m.slots[i] == Some(replaced) && m'.slots == m.slots[i := Some(c)]
  {
    var d, replaced := s.threads[c].destination.value, s.inCycle[c].fifth.value;
    var m, m' := s.monitors[d], Step(s, AddInCycle(c)).monitors[d];
    var i := FindIndex(m.slots, replaced);
    assert m.slots[i] == Some(replaced) && m'.slots == m.slots[i := Some(c)];
  }

  // ----- where everything is

  /** The slot that a component has claimed and not entered. */
  function Claim(s: State, d: Device, c: Component): Option<int> {
    if d in s.monitors && c in s.monitors[d].reserved then Some(s.monitors[d].reserved[c])
    else if c in s.threads && s.threads[c].phase.AwaitSlot? && s.threads[c].destination == Some(d)
    then Some(s.threads[c].phase.slot)
    else None
  }

  ghost predicate Claimed(s: State, d: Device, i: int) { exists c :: Claim(s, d, c) == Some(i) }

  predicate LeavesFrom(s: State, c: Component, d: Device) {
    c in s.threads && s.threads[c].source == Some(d) && s.threads[c].phase == ToRemove
  }

  /** The component in the slot has announced that it leaves. */
  predicate Leaving(s: State, d: Device, i: int)
    requires d in s.monitors
  {
    0 <= i < |s.monitors[d].slots| && s.monitors[d].slots[i].Some? && LeavesFrom(s, s.monitors[d].slots[i].value, d)
  }

  /** A component may be in a slot of the device: it has no transfer, or has not left it yet, or
      has entered it already. */
  predicate Belongs(s: State, c: Component, d: Device) {
    c in s.threads ==>
      var t := s.threads[c];
      || (t.source == Some(d) && t.phase in {ToReserve, Queued, Cycling, ToSignal, ToRemove})
      || (t.destination == Some(d) && t.phase in {ToSignal, ToRemove, ToAdd, ToFinish})
  }

  predicate Different(xs: seq<int>) { forall i, j :: 0 <= i < j < |xs| ==> xs[i] != xs[j] }

  predicate DifferentFree(xs: seq<nat>) { forall i, j :: 0 <= i < j < |xs| ==> xs[i] != xs[j] }

  predicate Once(slots: seq<Option<Component>>) {
    forall i, j :: 0 <= i < j < |slots| && slots[i].Some? ==> slots[i] != slots[j]
  }

  predicate FreePlaced(m: Monitor) {
    DifferentFree(m.free) && forall i :: i in m.free ==> i < |m.slots| && m.slots[i].None?
  }

  predicate FuturePlaced(s: State, d: Device)
    requires d in s.monitors
  {
    Different(s.monitors[d].future) && forall i :: i in s.monitors[d].future ==> Leaving(s, d, i)
  }

  /** A claimed slot is empty or will be, and belongs to a transfer to this device. */
  predicate ClaimPlaced(s: State, d: Device, c: Component)
    requires d in s.monitors
  {
    var m := s.monitors[d];
    Claim(s, d, c).Some? ==>
      var i := Claim(s, d, c).value;
      && 0 <= i < |m.slots| && i !in m.free && i !in m.future && (m.slots[i].None? || Leaving(s, d, i))
      && c in s.threads && s.threads[c].destination == Some(d)
      && (c in m.reserved ==> s.threads[c].phase in {ToSignal, ToRemove, ToAdd})
  }

  ghost predicate ClaimsApart(s: State, d: Device) {
    forall c, c' :: Claim(s, d, c).Some? && Claim(s, d, c) == Claim(s, d, c') ==> c == c'
  }

  /** An empty slot is free or claimed; a full one holds a component that belongs there, and is
      announced or claimed once that component is about to be removed. */
  ghost predicate SlotPlaced(s: State, d: Device, i: int)
    requires d in s.monitors && 0 <= i < |s.monitors[d].slots|
  {
    var m := s.monitors[d];
    match m.slots[i]
    case None => i in m.free || Claimed(s, d, i)
    case Some(c) => Belongs(s, c, d) && (LeavesFrom(s, c, d) ==> i in m.future || Claimed(s, d, i))
  }

  ghost predicate DevicePlaced(s: State, d: Device)
    requires d in s.monitors
  {
    var m := s.monitors[d];
    && FreePlaced(m) && Once(m.slots) && FuturePlaced(s, d) && ClaimsApart(s, d)
    && (forall c :: ClaimPlaced(s, d, c))
    && (forall i :: 0 <= i < |m.slots| ==> SlotPlaced(s, d, i))
  }

  /** Before it announces that it leaves, a component is on its source. From its reservation on
      it has a slot on its destination or has claimed one, and at the end it has one. */
  predicate ThreadPlaced(s: State, c: Component)
    requires c in s.threads
  {
    var t := s.threads[c];
    && (t.phase in {ToReserve, Queued, ToSignal} && t.source.Some? ==> Listed(s, t.source.value, c))
    && (t.phase in {ToSignal, ToRemove, ToAdd} && t.destination.Some? ==>
          (Listed(s, t.destination.value, c) <==> Claim(s, t.destination.value, c).None?))
    && (t.phase == ToFinish && t.destination.Some? ==> Listed(s, t.destination.value, c))
  }

  /** In a released cycle the component to be replaced is still in its old slot. It is in the
      cycle as well, or has reached its own new slot. */
  ghost predicate CyclePlaced(s: State, x: Component)
    requires x in s.inCycle
  {
    && x in s.threads && s.threads[x].phase == Cycling && s.threads[x].source.Some? && s.threads[x].destination.Some?
    && s.threads[x].source != s.threads[x].destination && s.inCycle[x].fifth.Some?
    && var d, c := s.threads[x].destination.value, s.inCycle[x].fifth.value;
    && Listed(s, d, c)
    && (c in s.threads ==> s.threads[c].phase == Cycling && s.threads[c].source == Some(d))
    && (c !in s.threads ==> exists e: Device :: e != d && Listed(s, e, c))
  }

  ghost predicate CyclesApart(s: State) {
    forall x, y :: x in s.inCycle && y in s.inCycle && x != y ==> s.inCycle[x].fifth != s.inCycle[y].fifth
  }

  ghost predicate Placed(s: State) {
    && (forall d :: d in s.monitors ==> DevicePlaced(s, d))
    && (forall c :: c in s.threads ==> ThreadPlaced(s, c))
    && (forall x :: x in s.inCycle ==> CyclePlaced(s, x))
    && CyclesApart(s)
  }

  /** A transfer begins with a component in exactly one slot, on its source; an addition with one
      that is nowhere. */
  ghost predicate Valid(s: State, e: Event) {
    e.Begin? ==>
      && (e.source.Some? ==> Listed(s, e.source.value, e.c))
      && forall d: Device :: Listed(s, d, e.c) ==> e.source == Some(d)
  }
}
