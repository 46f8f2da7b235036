/** That components stay where their transfers say: every step keeps `Placed`. */
module PlacementRuns {
  import opened ComponentPlacement
  import opened ComponentTransfers
  import opened Prelude
  import opened TransferCycles

  import StorageSystem

  // ----- what a step does not touch

  /** Seen from the device, nothing about the component has changed that matters. */
  ghost predicate SameAt(s: State, t: State, d: Device, c: Component)
    requires d in s.monitors
  {
    && Claim(t, d, c) == Claim(s, d, c)
    && (Listed(s, d, c) ==> Belongs(t, c, d) && (LeavesFrom(t, c, d) <==> LeavesFrom(s, c, d)))
    && (Claim(s, d, c).Some? ==>
          && c in t.threads && t.threads[c].destination == Some(d)
          && (c in s.monitors[d].reserved ==> t.threads[c].phase in {ToSignal, ToRemove, ToAdd}))
  }

  lemma DeviceFrame(s: State, t: State, d: Device)
    requires d in s.monitors && d in t.monitors && t.monitors[d] == s.monitors[d] && DevicePlaced(s, d)
    requires forall c :: SameAt(s, t, d, c)
    ensures DevicePlaced(t, d)
  {
    var m := s.monitors[d];
    forall i | 0 <= i < |m.slots| && m.slots[i].Some? ensures Leaving(t, d, i) <==> Leaving(s, d, i) {
      assert Listed(s, d, m.slots[i].value);
      assert SameAt(s, t, d, m.slots[i].value);
    }
    forall c ensures ClaimPlaced(t, d, c) {
      assert SameAt(s, t, d, c);
      assert ClaimPlaced(s, d, c);
    }
    forall c, c' ensures Claim(t, d, c).Some? && Claim(t, d, c) == Claim(t, d, c') ==> c == c' {
      assert SameAt(s, t, d, c) && SameAt(s, t, d, c');
    }
    forall i | 0 <= i < |m.slots| ensures SlotPlaced(t, d, i) {
      assert SlotPlaced(s, d, i);
      if Claimed(s, d, i) {
        var c :| Claim(s, d, c) == Some(i);
        assert SameAt(s, t, d, c);
        assert Claim(t, d, c) == Some(i);
      }
      if m.slots[i].Some? { assert SameAt(s, t, d, m.slots[i].value); }
    }
  }

  lemma CycleFrame(s: State, t: State, x: Component)
    requires x in s.inCycle && CyclePlaced(s, x) && x in t.inCycle && t.inCycle[x] == s.inCycle[x]
    requires x in t.threads && t.threads[x] == s.threads[x]
    requires var c := s.inCycle[x].fifth.value;
      && (forall d: Device :: Listed(s, d, c) ==> Listed(t, d, c))
      && (c in t.threads <==> c in s.threads) && (c in s.threads ==> t.threads[c] == s.threads[c])
    ensures CyclePlaced(t, x)
  {
    var d, c := s.threads[x].destination.value, s.inCycle[x].fifth.value;
    if c !in s.threads {
      var e: Device :| e != d && Listed(s, e, c);
      assert Listed(t, e, c);
    }
  }

  /** What is known of one component at one device. */
  lemma Seen(s: State, d: Device, c: Component)
    requires d in s.monitors && DevicePlaced(s, d)
    ensures ClaimPlaced(s, d, c) && (Listed(s, d, c) ==> Belongs(s, c, d))
  {
    if Listed(s, d, c) {
      var i :| 0 <= i < |s.monitors[d].slots| && s.monitors[d].slots[i] == Some(c);
      assert SlotPlaced(s, d, i);
    }
  }

  // ----- the steps that leave the slots alone

  /** Where one transfer begins, ends or waits, all others are seen as before. */
  lemma OthersSame(s: State, t: State, d: Device, c: Component, x: Component)
    requires d in s.monitors && DevicePlaced(s, d) && x != c && d in t.monitors && t.monitors[d] == s.monitors[d]
    requires x in t.threads <==> x in s.threads
    requires x in s.threads ==> t.threads[x] == s.threads[x]
    ensures SameAt(s, t, d, x)
  {
    Seen(s, d, x);
  }

  /** So is the one, if it has no claim and its component belongs where it is. */
  lemma ItselfSame(s: State, t: State, d: Device, c: Component)
    requires d in s.monitors && DevicePlaced(s, d) && d in t.monitors && t.monitors[d] == s.monitors[d]
    requires !(c in s.threads && (s.threads[c].phase.AwaitSlot? || s.threads[c].phase in {ToSignal, ToRemove, ToAdd}))
    requires !(c in t.threads && (t.threads[c].phase.AwaitSlot? || t.threads[c].phase == ToRemove))
    requires Listed(s, d, c) ==> Belongs(t, c, d)
    ensures SameAt(s, t, d, c)
  {
    Seen(s, d, c);
  }

  lemma BeginPlaced(s: State, c: Component, source: Option<Device>, destination: Option<Device>)
    requires Placed(s) && Enabled(s, Begin(c, source, destination)) && Valid(s, Begin(c, source, destination))
    ensures Placed(Step(s, Begin(c, source, destination)))
  {
    hide DevicePlaced, CyclePlaced, Claim, SameAt;
    var t := Step(s, Begin(c, source, destination));
    forall d | d in t.monitors ensures DevicePlaced(t, d) {
      ItselfSame(s, t, d, c);
      forall x ensures SameAt(s, t, d, x) { if x != c { OthersSame(s, t, d, c, x); } }
      DeviceFrame(s, t, d);
    }
    forall x | x in t.threads ensures ThreadPlaced(t, x) {
      if x != c { ThreadSame(s, t, x); }
    }
    forall x | x in t.inCycle ensures CyclePlaced(t, x) {
      NotReplaced(s, x, c, source);
      CycleFrame(s, t, x);
    }
  }

  lemma ThreadSame(s: State, t: State, x: Component)
    requires x in s.threads && ThreadPlaced(s, x) && x in t.threads && t.threads[x] == s.threads[x] && t.monitors == s.monitors
    ensures ThreadPlaced(t, x)
  {
  }

  /** A component that may begin is not about to be replaced in a cycle. */
  lemma NotReplaced(s: State, x: Component, c: Component, source: Option<Device>)
    requires x in s.inCycle && CyclePlaced(s, x) && c !in s.threads
    requires forall d: Device :: Listed(s, d, c) ==> source == Some(d)
    ensures s.inCycle[x].fifth != Some(c) && x != c && x in s.threads && s.inCycle[x].fifth.Some?
  {
  }

  lemma FinishPlaced(s: State, c: Component)
    requires Placed(s) && Enabled(s, Finish(c))
    ensures Placed(Step(s, Finish(c)))
  {
    hide DevicePlaced, Claim, SameAt;
    var t := Step(s, Finish(c));
    forall d | d in t.monitors ensures DevicePlaced(t, d) {
      ItselfSame(s, t, d, c);
      forall x ensures SameAt(s, t, d, x) { if x != c { OthersSame(s, t, d, c, x); } }
      DeviceFrame(s, t, d);
    }
    forall x | x in t.threads ensures ThreadPlaced(t, x) { ThreadSame(s, t, x); }
    forall x | x in t.inCycle ensures CyclePlaced(t, x) {
      assert CyclePlaced(s, x);
      CycleFrame(s, t, x);
    }
  }

  lemma QueuedPlaced(s: State, c: Component, queues: Queues)
    requires Placed(s) && At(s, c, ToReserve)
    ensures Placed(s.(queues := queues, threads := WithPhase(s.threads, c, Queued)))
  {
    hide DevicePlaced, Claim, SameAt;
    var t := s.(queues := queues, threads := WithPhase(s.threads, c, Queued));
    forall d | d in t.monitors ensures DevicePlaced(t, d) {
      Seen(s, d, c);
      ItselfSame(s, t, d, c);
      forall x ensures SameAt(s, t, d, x) { if x != c { OthersSame(s, t, d, c, x); } }
      DeviceFrame(s, t, d);
    }
    forall x | x in t.threads ensures ThreadPlaced(t, x) {
      assert ThreadPlaced(s, x);
      if x != c { ThreadSame(s, t, x); }
    }
    forall x | x in t.inCycle ensures CyclePlaced(t, x) {
      assert CyclePlaced(s, x);
      CycleFrame(s, t, x);
    }
  }

  lemma PlacedDevices(s: State)
    requires Placed(s)
    ensures forall d :: d in s.monitors ==> DevicePlaced(s, d)
  {
    hide DevicePlaced;
  }

  ghost predicate Apart(s: State) { forall x :: x in s.threads ==> s.threads[x].source != s.threads[x].destination }

  // ----- the parts of what a device keeps

  lemma PlacedParts(s: State, d: Device)
    requires d in s.monitors && DevicePlaced(s, d)
    ensures FreePlaced(s.monitors[d]) && Once(s.monitors[d].slots) && FuturePlaced(s, d) && ClaimsApart(s, d)
  {
  }

  /** One claim is new, given up or the same, and the others are the same. */
  lemma ClaimsApartAfter(s: State, t: State, d: Device, c: Component)
    requires ClaimsApart(s, d) && forall x :: x != c ==> Claim(t, d, x) == Claim(s, d, x)
    requires Claim(t, d, c).None? || Claim(t, d, c) == Claim(s, d, c) || !Claimed(s, d, Claim(t, d, c).value)
    ensures ClaimsApart(t, d)
  {
    hide Claim;
    assert forall x :: Claim(s, d, x).Some? ==> Claimed(s, d, Claim(s, d, x).value);
  }

  /** A claim stands as long as nobody else's claim changes and its own only for the same slot. */
  lemma StillClaimed(s: State, t: State, d: Device, c: Component, i: int)
    requires Claimed(s, d, i) && forall x :: x != c ==> Claim(t, d, x) == Claim(s, d, x)
    requires Claim(s, d, c) == Some(i) ==> Claim(t, d, c) == Some(i)
    ensures Claimed(t, d, i)
  {
    hide Claim;
    var x :| Claim(s, d, x) == Some(i);
    assert Claim(t, d, x) == Some(i);
  }

  // ----- a free slot is taken

  ghost predicate Takes(s: State, t: State, d: Device, c: Component) {
    && d in s.monitors && s.monitors[d].free != [] && s.monitors[d].free[0] < |s.monitors[d].slots|
    && At(s, c, ToReserve) && s.threads[c].destination == Some(d)
    && t.monitors == s.monitors[d := TakeSlot(s.monitors[d], c)]
    && t.threads == WithPhase(s.threads, c, AfterReserve(s.threads[c]))
  }

  lemma TakeClaims(s: State, t: State, d: Device, c: Component)
    requires Takes(s, t, d, c) && DevicePlaced(s, d) && Claim(s, d, c).None? && !Listed(s, d, c)
    ensures forall x :: Claim(t, d, x) == Claim(s, d, x) && ClaimPlaced(t, d, x)
  {
    hide Belongs, SlotPlaced, Once, ClaimsApart, FuturePlaced;
    var m, m' := s.monitors[d], t.monitors[d];
    var k := m.free[0];
    assert k in m.free;
    assert forall i :: i in m'.free ==> i in m.free;
    forall i | 0 <= i < |m.slots| && Leaving(s, d, i) ensures i != k && Leaving(t, d, i) {
      assert Listed(s, d, m.slots[i].value);
    }
    forall x ensures Claim(t, d, x) == Claim(s, d, x) && ClaimPlaced(t, d, x) { assert ClaimPlaced(s, d, x); }
  }

  lemma TakeSlotPlaced(s: State, t: State, d: Device, c: Component, i: nat)
    requires Takes(s, t, d, c) && DevicePlaced(s, d) && !Listed(s, d, c) && i < |s.monitors[d].slots|
    requires forall x :: Claim(t, d, x) == Claim(s, d, x)
    ensures SlotPlaced(t, d, i)
  {
    hide Claim, ClaimPlaced, ClaimsApart, FuturePlaced, Once;
    var m, m' := s.monitors[d], t.monitors[d];
    assert SlotPlaced(s, d, i);
    if Claimed(s, d, i) { StillClaimed(s, t, d, c, i); }
    assert m.free == [m.free[0]] + m'.free;
  }

  lemma TakeDevice(s: State, t: State, d: Device, c: Component)
    requires Apart(s) && Placed(s) && Takes(s, t, d, c)
    ensures DevicePlaced(t, d) && ThreadPlaced(t, c)
    ensures forall x :: x != c ==> Claim(t, d, x) == Claim(s, d, x) && (Listed(t, d, x) <==> Listed(s, d, x))
  {
    hide Placed, Apart, Claim, ClaimPlaced, SlotPlaced, Belongs;
    var m, m' := s.monitors[d], t.monitors[d];
    var k := m.free[0];
    NoClaimYet(s, d, c);
    PlacedParts(s, d);
    assert k in m.free && m'.slots[k] == Some(c);
    TakeClaims(s, t, d, c);
    forall x | x != c ensures Listed(t, d, x) <==> Listed(s, d, x) { TakeListed(m, m', c, x); }
    assert forall i :: i in m'.free ==> i in m.free && i != k;
    forall i | i in m'.future ensures Leaving(t, d, i) { assert Leaving(s, d, i); }
    forall i | 0 <= i < |m'.slots| ensures SlotPlaced(t, d, i) { TakeSlotPlaced(s, t, d, c, i); }
  }

  lemma TakeListed(m: Monitor, m': Monitor, c: Component, x: Component)
    requires m.free != [] && m.free[0] < |m.slots| && m.slots[m.free[0]].None? && x != c && m' == TakeSlot(m, c)
    ensures Some(x) in m'.slots <==> Some(x) in m.slots
  {
    if Some(x) in m.slots {
      var i :| 0 <= i < |m.slots| && m.slots[i] == Some(x);
      assert m'.slots[i] == Some(x);
    }
  }

  /** Before a reservation the component has nothing on its destination. */
  lemma NoClaimYet(s: State, d: Device, c: Component)
    requires Apart(s) && Placed(s) && d in s.monitors && c in s.threads && s.threads[c].phase in {ToReserve, Queued}
    requires s.threads[c].destination == Some(d)
    ensures DevicePlaced(s, d) && Claim(s, d, c).None? && !Listed(s, d, c)
    ensures s.threads[c].source != Some(d) && ThreadPlaced(s, c)
  {
    Seen(s, d, c);
  }

  // ----- one device and the transfers of some components change

  /** Outside cs, nothing changes but that a component that was about to be removed from d may be gone. */
  ghost predicate ChangesOnly(s: State, t: State, d: Device, cs: set<Component>) {
    && d in s.monitors && t.monitors.Keys == s.monitors.Keys && t.inCycle == s.inCycle && t.threads.Keys == s.threads.Keys
    && (forall e :: e in s.monitors && e != d ==> t.monitors[e] == s.monitors[e])
    && (forall x :: x in s.threads && x !in cs ==> t.threads[x] == s.threads[x])
    && (forall x :: x !in cs ==>
          && Claim(t, d, x) == Claim(s, d, x)
          && (Listed(s, d, x) && !LeavesFrom(s, x, d) ==> Listed(t, d, x))
          && (Listed(t, d, x) ==> Listed(s, d, x)))
    && (forall x :: x in cs ==> x in s.threads && s.threads[x].phase != Cycling)
  }

  lemma Assemble(s: State, t: State, d: Device, cs: set<Component>)
    requires Placed(s) && ChangesOnly(s, t, d, cs) && DevicePlaced(t, d)
    requires forall e, x :: e in s.monitors && e != d && x in cs ==> SameAt(s, t, e, x)
    requires forall x :: x in cs ==> ThreadPlaced(t, x)
    requires forall x :: x in t.threads && x !in cs && t.threads[x].phase == ToRemove ==>
      t.threads[x].source != t.threads[x].destination
    ensures Placed(t)
  {
    hide DevicePlaced, Listed, Claim;
    forall e | e in t.monitors ensures DevicePlaced(t, e) {
      if e != d {
        forall x ensures SameAt(s, t, e, x) {
          Seen(s, e, x);
          if x !in cs { ElsewhereSame(s, t, d, e, cs, x); }
        }
        DeviceFrame(s, t, e);
      }
    }
    forall x | x in t.threads ensures ThreadPlaced(t, x) {
      if x !in cs { ThreadFrame(s, t, d, cs, x); }
    }
    forall x | x in t.inCycle ensures CyclePlaced(t, x) {
      CycleMemberFrame(s, t, d, cs, x);
    }
  }

  lemma ElsewhereSame(s: State, t: State, d: Device, e: Device, cs: set<Component>, x: Component)
    requires ChangesOnly(s, t, d, cs) && e in s.monitors && x !in cs && e != d
    ensures Claim(t, e, x) == Claim(s, e, x) && Listed(t, e, x) == Listed(s, e, x)
    ensures Belongs(t, x, e) == Belongs(s, x, e) && LeavesFrom(t, x, e) == LeavesFrom(s, x, e)
  {
  }

  lemma ThreadFrame(s: State, t: State, d: Device, cs: set<Component>, x: Component)
    requires Placed(s) && ChangesOnly(s, t, d, cs) && x in t.threads && x !in cs
    requires t.threads[x].phase == ToRemove ==> t.threads[x].source != t.threads[x].destination
    ensures ThreadPlaced(t, x)
  {
    hide DevicePlaced;
    assert ThreadPlaced(s, x);
  }

  lemma CycleMemberFrame(s: State, t: State, d: Device, cs: set<Component>, x: Component)
    requires Placed(s) && ChangesOnly(s, t, d, cs) && x in s.inCycle
    ensures CyclePlaced(t, x)
  {
    hide DevicePlaced;
    assert CyclePlaced(s, x);
    var c := s.inCycle[x].fifth.value;
    assert c !in cs && x !in cs;
    CycleFrame(s, t, x);
  }

  const AT_SOURCE := {ToReserve, Queued, Cycling, ToSignal, ToRemove}

  /** A transfer that gets on at its destination is seen as before from every other device. */
  lemma ElsewhereEntering(s: State, t: State, d: Device, e: Device, c: Component)
    requires e in s.monitors && DevicePlaced(s, e) && e in t.monitors && t.monitors[e] == s.monitors[e] && e != d
    requires c in s.threads && s.threads[c].destination == Some(d) && c in t.threads
    requires t.threads[c] == s.threads[c].(phase := t.threads[c].phase)
    requires s.threads[c].phase != ToRemove && t.threads[c].phase != ToRemove
    requires s.threads[c].source.Some? && s.threads[c].phase in AT_SOURCE ==> t.threads[c].phase in AT_SOURCE
    ensures SameAt(s, t, e, c)
  {
    Seen(s, e, c);
  }

  /** So is one that gets on at its source. */
  lemma ElsewhereLeaving(s: State, t: State, d: Device, e: Device, c: Component)
    requires e in s.monitors && DevicePlaced(s, e) && e in t.monitors && t.monitors[e] == s.monitors[e] && e != d
    requires c in s.threads && s.threads[c].source == Some(d) && c in t.threads
    requires t.threads[c] == s.threads[c].(phase := t.threads[c].phase)
    requires s.threads[c].phase in {ToSignal, ToRemove} && t.threads[c].phase in {ToRemove, ToAdd, ToFinish}
    requires s.threads[c].destination.Some? ==> t.threads[c].phase != ToFinish
    ensures SameAt(s, t, e, c)
  {
    Seen(s, e, c);
  }

  lemma TakePlaced(s: State, c: Component, d: Device)
    requires Apart(s) && Placed(s) && At(s, c, ToReserve) && d in s.monitors && s.threads[c].destination == Some(d)
    requires s.monitors[d].free != [] && s.monitors[d].free[0] < |s.monitors[d].slots|
    ensures Placed(s.(monitors := s.monitors[d := TakeSlot(s.monitors[d], c)],
                      threads := WithPhase(s.threads, c, AfterReserve(s.threads[c]))))
  {
    hide DevicePlaced, Claim, Listed, Belongs, SameAt, TakeSlot;
    var t := s.(monitors := s.monitors[d := TakeSlot(s.monitors[d], c)],
                threads := WithPhase(s.threads, c, AfterReserve(s.threads[c])));
    NoClaimYet(s, d, c);
    TakeDevice(s, t, d, c);
    forall e | e in s.monitors && e != d ensures SameAt(s, t, e, c) { ElsewhereEntering(s, t, d, e, c); }
    Assemble(s, t, d, {c});
  }


  // ----- an announced slot is claimed

  ghost predicate Claims(s: State, t: State, d: Device, c: Component) {
    && d in s.monitors && s.monitors[d].future != []
    && c in s.threads && s.threads[c].phase in {ToReserve, Queued} && s.threads[c].destination == Some(d)
    && t.monitors == s.monitors[d := ClaimFuture(s.monitors[d], c)]
    && t.threads == WithPhase(s.threads, c, AfterReserve(s.threads[c]))
  }

  lemma ClaimClaims(s: State, t: State, d: Device, c: Component)
    requires Claims(s, t, d, c) && DevicePlaced(s, d) && Claim(s, d, c).None?
    ensures forall x :: x != c ==> Claim(t, d, x) == Claim(s, d, x)
    ensures Claim(t, d, c) == Some(s.monitors[d].future[0]) && !Claimed(s, d, s.monitors[d].future[0])
    ensures forall x :: ClaimPlaced(t, d, x)
  {
    hide Belongs, SlotPlaced, Once, ClaimsApart, FreePlaced;
    var m, k := s.monitors[d], s.monitors[d].future[0];
    assert k in m.future && Leaving(s, d, k) && m.slots[k].Some?;
    FreeEmpty(s, d);
    assert forall i :: i in m.future[1..] ==> i in m.future;
    forall i | 0 <= i < |m.slots| && Leaving(s, d, i) ensures Leaving(t, d, i) {}
    forall x ensures ClaimPlaced(t, d, x) { assert ClaimPlaced(s, d, x); }
    forall x ensures Claim(s, d, x) != Some(k) { assert ClaimPlaced(s, d, x); }
  }

  lemma FreeEmpty(s: State, d: Device)
    requires d in s.monitors && DevicePlaced(s, d)
    ensures forall i :: i in s.monitors[d].free ==> i < |s.monitors[d].slots| && s.monitors[d].slots[i].None?
  {
  }

  lemma ClaimSlot(s: State, t: State, d: Device, c: Component, i: nat)
    requires Claims(s, t, d, c) && DevicePlaced(s, d) && Claim(s, d, c).None? && i < |s.monitors[d].slots|
    requires forall x :: x != c ==> Claim(t, d, x) == Claim(s, d, x)
    requires Claim(t, d, c) == Some(s.monitors[d].future[0]) && !Listed(s, d, c)
    ensures SlotPlaced(t, d, i)
  {
    hide Claim, ClaimPlaced, ClaimsApart, FreePlaced, FuturePlaced, Once;
    var m, m' := s.monitors[d], t.monitors[d];
    assert SlotPlaced(s, d, i);
    if Claimed(s, d, i) { StillClaimed(s, t, d, c, i); }
    if i in m.future && i !in m'.future { assert m.future == [m.future[0]] + m'.future; }
  }

  lemma ClaimDevice(s: State, t: State, d: Device, c: Component)
    requires Apart(s) && Placed(s) && Claims(s, t, d, c)
    ensures DevicePlaced(t, d) && ThreadPlaced(t, c)
    ensures forall x :: x != c ==> Claim(t, d, x) == Claim(s, d, x) && (Listed(t, d, x) <==> Listed(s, d, x))
  {
    hide Placed, Apart, Claim, ClaimPlaced, SlotPlaced, ClaimsApart, Once, Belongs;
    NoClaimYet(s, d, c);
    PlacedParts(s, d);
    ClaimClaims(s, t, d, c);
    ClaimsApartAfter(s, t, d, c);
    var m, m' := s.monitors[d], t.monitors[d];
    assert forall i :: i in m'.future ==> i in m.future && i != m.future[0];
    forall i | 0 <= i < |m.slots| && Leaving(s, d, i) ensures Leaving(t, d, i) {}
    forall i | 0 <= i < |m'.slots| ensures SlotPlaced(t, d, i) { ClaimSlot(s, t, d, c, i); }
  }

  lemma ClaimKept(s: State, c: Component, d: Device, queues: Queues)
    requires Apart(s) && Placed(s) && d in s.monitors && s.monitors[d].future != []
    requires c in s.threads && s.threads[c].phase in {ToReserve, Queued} && s.threads[c].destination == Some(d)
    ensures Placed(s.(monitors := s.monitors[d := ClaimFuture(s.monitors[d], c)], queues := queues,
                      threads := WithPhase(s.threads, c, AfterReserve(s.threads[c]))))
  {
    hide DevicePlaced, Claim, Listed, Belongs, SameAt, ClaimFuture;
    var t := s.(monitors := s.monitors[d := ClaimFuture(s.monitors[d], c)], queues := queues,
                threads := WithPhase(s.threads, c, AfterReserve(s.threads[c])));
    NoClaimYet(s, d, c);
    ClaimDevice(s, t, d, c);
    forall e | e in s.monitors && e != d ensures SameAt(s, t, e, c) { ElsewhereEntering(s, t, d, e, c); }
    Assemble(s, t, d, {c});
  }

  // ----- a slot is announced

  ghost predicate Announces(s: State, t: State, d: Device, c: Component) {
    && d in s.monitors && At(s, c, ToSignal) && s.threads[c].source == Some(d)
    && var m := s.monitors[d];
    && t.monitors == s.monitors[d := m.(future := m.future + [FindIndex(m.slots, c)])]
    && t.threads == WithPhase(s.threads, c, ToRemove)
  }

  lemma AnnounceClaims(s: State, t: State, d: Device, c: Component)
    requires Announces(s, t, d, c) && DevicePlaced(s, d) && FindIndex(s.monitors[d].slots, c) >= 0
    ensures forall x :: Claim(t, d, x) == Claim(s, d, x) && ClaimPlaced(t, d, x)
  {
    hide Belongs, SlotPlaced, ClaimsApart, FreePlaced, FuturePlaced;
    var m, k := s.monitors[d], FindIndex(s.monitors[d].slots, c);
    assert forall i :: i in t.monitors[d].future <==> i in m.future || i == k;
    forall i | 0 <= i < |m.slots| && i != k ensures Leaving(t, d, i) <==> Leaving(s, d, i) {}
    forall x ensures Claim(t, d, x) == Claim(s, d, x) && ClaimPlaced(t, d, x) { assert ClaimPlaced(s, d, x); }
  }

  lemma AnnounceSlot(s: State, t: State, d: Device, c: Component, i: nat)
    requires Announces(s, t, d, c) && DevicePlaced(s, d) && FindIndex(s.monitors[d].slots, c) >= 0
    requires i < |s.monitors[d].slots| && forall x :: Claim(t, d, x) == Claim(s, d, x)
    ensures SlotPlaced(t, d, i)
  {
    hide Claim, ClaimPlaced, ClaimsApart, FreePlaced, FuturePlaced;
    var m, k := s.monitors[d], FindIndex(s.monitors[d].slots, c);
    assert forall j :: j in t.monitors[d].future <==> j in m.future || j == k;
    assert SlotPlaced(s, d, i);
    if Claimed(s, d, i) { StillClaimed(s, t, d, c, i); }
  }

  lemma AnnounceDevice(s: State, t: State, d: Device, c: Component)
    requires Placed(s) && Announces(s, t, d, c)
    ensures DevicePlaced(t, d)
    ensures forall x :: x != c ==> Claim(t, d, x) == Claim(s, d, x) && (Listed(t, d, x) <==> Listed(s, d, x))
  {
    hide Placed, Claim, ClaimPlaced, SlotPlaced, Belongs, ClaimsApart, Once;
    var m, m' := s.monitors[d], t.monitors[d];
    SignalSeen(s, d, c);
    PlacedParts(s, d);
    AnnounceClaims(s, t, d, c);
    ClaimsApartAfter(s, t, d, c);
    var k := FindIndex(m.slots, c);
    assert m.slots[k] == Some(c) && k !in m.future;
    forall i | 0 <= i < |m.slots| && Leaving(s, d, i) ensures Leaving(t, d, i) {}
    assert Leaving(t, d, k);
    forall i | 0 <= i < |m'.slots| ensures SlotPlaced(t, d, i) { AnnounceSlot(s, t, d, c, i); }
  }

  lemma SignalSeen(s: State, d: Device, c: Component)
    requires Placed(s) && d in s.monitors && At(s, c, ToSignal) && s.threads[c].source == Some(d)
    ensures DevicePlaced(s, d) && ThreadPlaced(s, c) && Listed(s, d, c)
    ensures FindIndex(s.monitors[d].slots, c) >= 0
  {
  }

  lemma AnnouncePlaced(s: State, c: Component, d: Device)
    requires Apart(s) && Placed(s) && d in s.monitors && At(s, c, ToSignal) && s.threads[c].source == Some(d)
    ensures var m := s.monitors[d];
      Placed(s.(monitors := s.monitors[d := m.(future := m.future + [FindIndex(m.slots, c)])],
                threads := WithPhase(s.threads, c, ToRemove)))
  {
    hide DevicePlaced, Claim, Listed, Belongs, SameAt;
    var m := s.monitors[d];
    var t := s.(monitors := s.monitors[d := m.(future := m.future + [FindIndex(m.slots, c)])],
                threads := WithPhase(s.threads, c, ToRemove));
    PlacedDevices(s);
    AnnounceDevice(s, t, d, c);
    forall e | e in s.monitors && e != d ensures SameAt(s, t, e, c) { ElsewhereLeaving(s, t, d, e, c); }
    AtDestination(s, t, d, c);
    Assemble(s, t, d, {c});
  }

  /** What a leaving component has on its destination does not change. */
  lemma AtDestination(s: State, t: State, d: Device, c: Component)
    requires Apart(s) && Placed(s) && c in s.threads && s.threads[c].source == Some(d)
    requires s.threads[c].phase in {ToSignal, ToRemove}
    requires c in t.threads && t.threads[c] == s.threads[c].(phase := t.threads[c].phase)
    requires t.threads[c].phase in {ToRemove, ToAdd}
    requires forall e :: e in s.monitors && e != d ==> e in t.monitors && t.monitors[e] == s.monitors[e]
    requires t.monitors.Keys == s.monitors.Keys
    ensures ThreadPlaced(t, c)
  {
    hide DevicePlaced;
    assert ThreadPlaced(s, c);
  }

  // ----- a component is removed

  lemma {:induction false} InsertedDifferent(free: seq<nat>, i: nat)
    requires DifferentFree(free) && i !in free
    ensures DifferentFree(InsertSorted(free, i)) && forall x :: x in InsertSorted(free, i) <==> x in free || x == i
  {
    if free != [] {
      var rest, r := InsertSorted(free[1..], i), InsertSorted(free, i);
      InsertedDifferent(free[1..], i);
      assert forall x :: x in free <==> x == free[0] || x in free[1..];
      if i > free[0] {
        assert r == [free[0]] + rest && free[0] !in rest;
        forall j, k | 0 <= j < k < |r| ensures r[j] != r[k] { assert r[k] == rest[k - 1] && rest[k - 1] in rest; }
      } else {
        assert r == [i] + free;
      }
    }
  }

  lemma {:induction false} RemovedDifferent(xs: seq<int>, x: int)
    requires Different(xs)
    ensures Different(RemoveFirst(xs, x)) && forall y :: y in RemoveFirst(xs, x) <==> y in xs && y != x
  {
    if xs != [] {
      var rest, r := RemoveFirst(xs[1..], x), RemoveFirst(xs, x);
      RemovedDifferent(xs[1..], x);
      assert forall y :: y in xs <==> y == xs[0] || y in xs[1..];
      if xs[0] != x {
        assert r == [xs[0]] + rest && xs[0] !in rest;
        forall j, k | 0 <= j < k < |r| ensures r[j] != r[k] { assert r[k] == rest[k - 1] && rest[k - 1] in rest; }
      }
    }
  }

  /** What is known where a component is about to be removed. */
  lemma RemoveSeen(s: State, d: Device, c: Component)
    requires Apart(s) && Placed(s) && d in s.monitors && LeavesFrom(s, c, d) && FindIndex(s.monitors[d].slots, c) >= 0
    ensures DevicePlaced(s, d) && Claim(s, d, c).None?
    ensures var i := FindIndex(s.monitors[d].slots, c);
      && s.monitors[d].slots[i] == Some(c) && Leaving(s, d, i) && i !in s.monitors[d].free
      && (i !in s.monitors[d].future ==> Claimed(s, d, i))
      && forall j :: 0 <= j < |s.monitors[d].slots| && j != i ==> s.monitors[d].slots[j] != Some(c)
  {
    var m, i := s.monitors[d], FindIndex(s.monitors[d].slots, c);
    assert SlotPlaced(s, d, i);
    Seen(s, d, c);
  }

  /** The removal of c empties its slot, and only that. */
  ghost predicate Empties(s: State, t: State, d: Device, c: Component) {
    && d in s.monitors && LeavesFrom(s, c, d) && DevicePlaced(s, d) && Claim(s, d, c).None?
    && var m, k := s.monitors[d], FindIndex(s.monitors[d].slots, c);
    && k >= 0 && d in t.monitors
    && var m' := t.monitors[d];
    && m'.slots == m.slots[k := None] && m'.reserved == m.reserved
    && (forall i :: i in m.free ==> i in m'.free) && (forall i :: i in m'.free ==> i in m.free || (i == k && k in m.future))
    && (forall i :: i in m'.future <==> i in m.future && i != k)
    && t.threads == WithPhase(s.threads, c, AfterRemove(s.threads[c]))
  }

  lemma EmptiedClaims(s: State, t: State, d: Device, c: Component)
    requires Empties(s, t, d, c) && Apart(s) && Placed(s)
    ensures forall x :: Claim(t, d, x) == Claim(s, d, x) && ClaimPlaced(t, d, x)
  {
    hide Placed, Belongs, FreePlaced, FuturePlaced, ClaimsApart, SlotPlaced, Apart;
    RemoveSeen(s, d, c);
    var m, k := s.monitors[d], FindIndex(s.monitors[d].slots, c);
    forall i | 0 <= i < |m.slots| && i != k ensures Leaving(t, d, i) <==> Leaving(s, d, i) {}
    forall x ensures Claim(t, d, x) == Claim(s, d, x) && ClaimPlaced(t, d, x) {
      assert ClaimPlaced(s, d, x);
    }
  }

  lemma EmptiedSlot(s: State, t: State, d: Device, c: Component, i: nat)
    requires Empties(s, t, d, c) && i < |s.monitors[d].slots|
    requires forall x :: Claim(t, d, x) == Claim(s, d, x)
    requires var k := FindIndex(s.monitors[d].slots, c); k in t.monitors[d].free || Claimed(s, d, k)
    ensures SlotPlaced(t, d, i)
  {
    hide Claim, ClaimPlaced, FreePlaced, FuturePlaced, ClaimsApart;
    assert SlotPlaced(s, d, i);
    if Claimed(s, d, i) { StillClaimed(s, t, d, c, i); }
  }

  /** What is left to show of the device: the new lists of free and announced slots. */
  lemma EmptiedDevice(s: State, t: State, d: Device, c: Component)
    requires Apart(s) && Placed(s) && Empties(s, t, d, c)
    requires FreePlaced(t.monitors[d]) && Different(t.monitors[d].future)
    requires var k := FindIndex(s.monitors[d].slots, c); k in t.monitors[d].free || Claimed(s, d, k)
    ensures DevicePlaced(t, d)
    ensures forall x :: x != c ==> Claim(t, d, x) == Claim(s, d, x) && (Listed(t, d, x) <==> Listed(s, d, x))
  {
    hide Placed, Apart, Claim, ClaimPlaced, SlotPlaced, Belongs, FreePlaced, ClaimsApart, Once;
    var m, m', k := s.monitors[d], t.monitors[d], FindIndex(s.monitors[d].slots, c);
    RemoveSeen(s, d, c);
    PlacedParts(s, d);
    EmptiedClaims(s, t, d, c);
    ClaimsApartAfter(s, t, d, c);
    EmptiedOnce(m.slots, k);
    forall x | x != c ensures Listed(t, d, x) <==> Listed(s, d, x) { EmptiedListed(m.slots, k, c, x); }
    forall i | 0 <= i < |m.slots| && i != k ensures Leaving(t, d, i) <==> Leaving(s, d, i) {}
    forall i | 0 <= i < |m'.slots| ensures SlotPlaced(t, d, i) { EmptiedSlot(s, t, d, c, i); }
  }

  lemma VacateFutureDevice(s: State, t: State, d: Device, c: Component, woken: Component, slot: nat)
    requires Apart(s) && Placed(s) && d in s.monitors && LeavesFrom(s, c, d)
    requires var m := s.monitors[d]; var i := FindIndex(m.slots, c);
      0 <= i < |m.slots| == |m.awaited| && i in m.future && t.monitors == s.monitors[d := Vacate(m, i, woken, slot)]
    requires t.threads == WithPhase(s.threads, c, AfterRemove(s.threads[c]))
    ensures DevicePlaced(t, d)
    ensures forall x :: x != c ==> Claim(t, d, x) == Claim(s, d, x) && (Listed(t, d, x) <==> Listed(s, d, x))
  {
    hide Placed, Apart, Claim, ClaimPlaced, SlotPlaced, Belongs, ClaimsApart, Once;
    var m, k := s.monitors[d], FindIndex(s.monitors[d].slots, c);
    RemoveSeen(s, d, c);
    PlacedParts(s, d);
    InsertedDifferent(m.free, k);
    RemovedDifferent(m.future, k);
    EmptiedDevice(s, t, d, c);
  }

  lemma VacateEmptyDevice(s: State, t: State, d: Device, c: Component, woken: Component, slot: nat)
    requires Apart(s) && Placed(s) && d in s.monitors && LeavesFrom(s, c, d)
    requires var m := s.monitors[d]; var i := FindIndex(m.slots, c);
      && 0 <= i < |m.slots| == |m.awaited| && i !in m.future && !m.awaited[i]
      && t.monitors == s.monitors[d := Vacate(m, i, woken, slot)]
    requires t.threads == WithPhase(s.threads, c, AfterRemove(s.threads[c]))
    ensures DevicePlaced(t, d)
    ensures forall x :: x != c ==> Claim(t, d, x) == Claim(s, d, x) && (Listed(t, d, x) <==> Listed(s, d, x))
  {
    hide Placed, Apart, Claim, ClaimPlaced, SlotPlaced, Belongs, ClaimsApart, Once;
    RemoveSeen(s, d, c);
    PlacedParts(s, d);
    EmptiedDevice(s, t, d, c);
  }

  lemma EmptiedListed(slots: seq<Option<Component>>, k: nat, c: Component, x: Component)
    requires k < |slots| && slots[k] == Some(c) && x != c
    ensures Some(x) in slots[k := None] <==> Some(x) in slots
  {
    if Some(x) in slots {
      var i :| 0 <= i < |slots| && slots[i] == Some(x);
      assert slots[k := None][i] == Some(x);
    }
  }

  lemma EmptiedOnce(slots: seq<Option<Component>>, k: nat)
    requires Once(slots) && k < |slots|
    ensures Once(slots[k := None])
  {
  }

  lemma WokenSeen(s: State, d: Device, woken: Component)
    requires Apart(s) && Placed(s) && d in s.monitors && woken in s.threads && s.threads[woken].phase.AwaitSlot?
    requires s.threads[woken].destination == Some(d)
    ensures DevicePlaced(s, d) && !Listed(s, d, woken)
    ensures var k := s.threads[woken].phase.slot;
      && Claim(s, d, woken) == Some(k) && k < |s.monitors[d].slots|
      && k !in s.monitors[d].free && k !in s.monitors[d].future
      && (s.monitors[d].slots[k].None? || Leaving(s, d, k))
  {
    Seen(s, d, woken);
  }

  /** The removal of c from slot i lets the woken component enter its slot k, the same or another one. */
  ghost predicate WokenEnters(s: State, t: State, d: Device, c: Component, woken: Component) {
    && Apart(s) && d in s.monitors && DevicePlaced(s, d) && LeavesFrom(s, c, d)
    && woken in s.threads && s.threads[woken].phase.AwaitSlot? && s.threads[woken].destination == Some(d) && woken != c
    && var m, k := s.monitors[d], s.threads[woken].phase.slot; var i := FindIndex(m.slots, c);
    && 0 <= i < |m.slots| && k < |m.slots| && i !in m.future
    && d in t.monitors && t.monitors[d].slots == m.slots[i := None][k := Some(woken)]
    && t.monitors[d].free == m.free && t.monitors[d].future == m.future && t.monitors[d].reserved == m.reserved
    && t.threads == WithPhase(WithPhase(s.threads, c, AfterRemove(s.threads[c])), woken, ToFinish)
  }

  lemma WokenSlots(s: State, t: State, d: Device, c: Component, woken: Component)
    requires WokenEnters(s, t, d, c, woken) && !Listed(s, d, woken)
    requires var k := s.threads[woken].phase.slot; s.monitors[d].slots[k].None? || Leaving(s, d, k)
    ensures Once(t.monitors[d].slots) && Listed(t, d, woken)
    ensures forall x :: x != c && x != woken ==>
      (Listed(t, d, x) ==> Listed(s, d, x)) && (Listed(s, d, x) && !LeavesFrom(s, x, d) ==> Listed(t, d, x))
  {
    var m, m', k := s.monitors[d], t.monitors[d], s.threads[woken].phase.slot;
    assert m'.slots[k] == Some(woken);
    forall x | x != c && x != woken
      ensures (Listed(t, d, x) ==> Listed(s, d, x)) && (Listed(s, d, x) && !LeavesFrom(s, x, d) ==> Listed(t, d, x))
    {
      if Listed(s, d, x) && !LeavesFrom(s, x, d) {
        var j :| 0 <= j < |m.slots| && m.slots[j] == Some(x);
        assert m'.slots[j] == Some(x);
      }
    }
  }

  lemma WokenClaims(s: State, t: State, d: Device, c: Component, woken: Component)
    requires WokenEnters(s, t, d, c, woken) && Claim(s, d, c).None?
    ensures Claim(t, d, woken).None? && forall x :: x != woken ==> Claim(t, d, x) == Claim(s, d, x)
    ensures ClaimsApart(t, d)
  {
    hide FindIndex, Belongs, Leaving;
    assert ClaimPlaced(s, d, woken);
  }

  lemma OneClaim(s: State, d: Device, x: Component, y: Component)
    requires d in s.monitors && DevicePlaced(s, d)
    ensures Claim(s, d, x).Some? && Claim(s, d, x) == Claim(s, d, y) ==> x == y
  {
  }

  lemma WokenClaim(s: State, t: State, d: Device, c: Component, woken: Component, x: Component)
    requires WokenEnters(s, t, d, c, woken) && Claim(s, d, woken) == Some(s.threads[woken].phase.slot)
    requires Claim(s, d, c).None? && Claim(t, d, woken).None? && (x != woken ==> Claim(t, d, x) == Claim(s, d, x))
    ensures ClaimPlaced(t, d, x)
  {
    hide Belongs, FreePlaced, FuturePlaced, SlotPlaced, ClaimsApart;
    OneClaim(s, d, x, woken);
    assert ClaimPlaced(s, d, x);
    if x != woken && Claim(s, d, x).Some? {
      var j := Claim(s, d, x).value;
      assert j != s.threads[woken].phase.slot;
      assert t.monitors[d].slots[j] == s.monitors[d].slots[j] || t.monitors[d].slots[j].None?;
    }
  }

  lemma WokenSlotPlaced(s: State, t: State, d: Device, c: Component, woken: Component, j: nat)
    requires WokenEnters(s, t, d, c, woken) && Claim(s, d, woken) == Some(s.threads[woken].phase.slot)
    requires forall x :: x != woken ==> Claim(t, d, x) == Claim(s, d, x)
    requires j < |s.monitors[d].slots|
    ensures SlotPlaced(t, d, j)
  {
    hide ClaimsApart, ClaimPlaced, FreePlaced, FuturePlaced, Claim;
    var m, i := s.monitors[d], FindIndex(s.monitors[d].slots, c);
    assert SlotPlaced(s, d, j);
    if j != s.threads[woken].phase.slot && Claimed(s, d, j) {
      var x :| Claim(s, d, x) == Some(j);
      assert Claim(t, d, x) == Some(j);
    }
  }

  lemma VacateWokenDevice(s: State, t: State, d: Device, c: Component, woken: Component)
    requires Placed(s) && WokenEnters(s, t, d, c, woken)
    ensures DevicePlaced(t, d) && ThreadPlaced(t, woken)
    ensures forall x :: x != c && x != woken ==>
      && Claim(t, d, x) == Claim(s, d, x)
      && (Listed(t, d, x) ==> Listed(s, d, x)) && (Listed(s, d, x) && !LeavesFrom(s, x, d) ==> Listed(t, d, x))
  {
    hide Placed, Apart, Claim, Belongs, ClaimPlaced, SlotPlaced, Listed, ClaimsApart, Once;
    RemoveSeen(s, d, c);
    WokenSeen(s, d, woken);
    WokenSlots(s, t, d, c, woken);
    WokenClaims(s, t, d, c, woken);
    forall x ensures ClaimPlaced(t, d, x) { WokenClaim(s, t, d, c, woken, x); }
    forall j | 0 <= j < |t.monitors[d].slots| ensures SlotPlaced(t, d, j) { WokenSlotPlaced(s, t, d, c, woken, j); }
  }

  lemma WokenStep(s: State, c: Component, woken: Component)
    requires Apart(s) && Placed(s) && Enabled(s, Remove(c, woken))
    requires var m := s.monitors[s.threads[c].source.value]; var i := FindIndex(m.slots, c);
      i !in m.future && m.awaited[i]
    ensures WokenEnters(s, RemoveStep(s, c, woken), s.threads[c].source.value, c, woken)
  {
    hide DevicePlaced;
  }

  lemma WokenElsewhere(s: State, t: State, d: Device, e: Device, c: Component, woken: Component)
    requires WokenEnters(s, t, d, c, woken) && e in s.monitors && e != d && DevicePlaced(s, e)
    requires e in t.monitors && t.monitors[e] == s.monitors[e]
    ensures SameAt(s, t, e, c) && SameAt(s, t, e, woken)
  {
    hide DevicePlaced, Claim, Listed, Belongs, SameAt, FindIndex;
    ElsewhereLeaving(s, t, d, e, c);
    ElsewhereEntering(s, t, d, e, woken);
  }

  lemma WokenChanges(s: State, c: Component, woken: Component, t: State, d: Device)
    requires Enabled(s, Remove(c, woken)) && t == RemoveStep(s, c, woken) && d == s.threads[c].source.value
    requires WokenEnters(s, t, d, c, woken)
    requires forall x :: x != c && x != woken ==>
      && Claim(t, d, x) == Claim(s, d, x)
      && (Listed(t, d, x) ==> Listed(s, d, x)) && (Listed(s, d, x) && !LeavesFrom(s, x, d) ==> Listed(t, d, x))
    ensures ChangesOnly(s, t, d, {c, woken})
  {
    hide DevicePlaced, Claim, Listed, Vacate, FindIndex;
  }

  lemma RemoveWokenPlaced(s: State, c: Component, woken: Component)
    requires Apart(s) && Placed(s) && Enabled(s, Remove(c, woken))
    requires var m := s.monitors[s.threads[c].source.value]; var i := FindIndex(m.slots, c);
      i !in m.future && m.awaited[i]
    ensures Placed(RemoveStep(s, c, woken))
  {
    var t, d := RemoveStep(s, c, woken), s.threads[c].source.value;
    WokenStep(s, c, woken);
    PlacedDevices(s);
    hide *;
    VacateWokenDevice(s, t, d, c, woken);
    WokenChanges(s, c, woken, t, d);
    WokenAssembled(s, t, d, c, woken);
  }

  lemma WokenAssembled(s: State, t: State, d: Device, c: Component, woken: Component)
    requires Apart(s) && Placed(s) && WokenEnters(s, t, d, c, woken) && ChangesOnly(s, t, d, {c, woken})
    requires DevicePlaced(t, d) && ThreadPlaced(t, woken)
    ensures Placed(t)
  {
    hide DevicePlaced, Claim, Listed, Belongs, SameAt, FindIndex, ThreadPlaced, CyclePlaced, CyclesApart, Placed;
    PlacedDevices(s);
    forall e | e in s.monitors && e != d ensures SameAt(s, t, e, c) && SameAt(s, t, e, woken) {
      WokenElsewhere(s, t, d, e, c, woken);
    }
    RemovedThread(s, t, d, c);
    Assemble(s, t, d, {c, woken});
  }

  lemma RemovePlaced(s: State, c: Component, woken: Component)
    requires Apart(s) && Placed(s) && Enabled(s, Remove(c, woken))
    ensures Placed(RemoveStep(s, c, woken))
  {
    hide DevicePlaced, Claim, Listed, Belongs, SameAt, Vacate, FindIndex;
    var t, d := RemoveStep(s, c, woken), s.threads[c].source.value;
    var m, i := s.monitors[d], FindIndex(s.monitors[d].slots, c);
    if i !in m.future && m.awaited[i] {
      RemoveWokenPlaced(s, c, woken);
    } else {
      if i in m.future { VacateFutureDevice(s, t, d, c, woken, WokenSlot(s, woken)); }
      else { VacateEmptyDevice(s, t, d, c, woken, WokenSlot(s, woken)); }
      forall e | e in s.monitors && e != d ensures SameAt(s, t, e, c) { ElsewhereLeaving(s, t, d, e, c); }
      RemovedThread(s, t, d, c);
      Assemble(s, t, d, {c});
    }
  }

  lemma RemovedThread(s: State, t: State, d: Device, c: Component)
    requires Apart(s) && Placed(s) && LeavesFrom(s, c, d)
    requires c in t.threads && t.threads[c] == s.threads[c].(phase := AfterRemove(s.threads[c]))
    requires forall e :: e in s.monitors && e != d ==> e in t.monitors && t.monitors[e] == s.monitors[e]
    requires t.monitors.Keys == s.monitors.Keys
    ensures ThreadPlaced(t, c)
  {
    hide DevicePlaced, Placed, Claim;
    if s.threads[c].destination.Some? { AtDestination(s, t, d, c); }
  }

  // ----- a component enters

  ghost predicate Enters(s: State, t: State, d: Device, c: Component) {
    && d in s.monitors && At(s, c, ToAdd) && s.threads[c].destination == Some(d)
    && var m := s.monitors[d];
    && (c in m.reserved ==> 0 <= m.reserved[c] < |m.slots| == |m.awaited|)
    && t.monitors == s.monitors[d := Enter(m, c)]
    && t.threads == WithPhase(s.threads, c, AfterEnter(m, c))
  }

  lemma EnterClaims(s: State, t: State, d: Device, c: Component)
    requires Enters(s, t, d, c) && DevicePlaced(s, d)
    ensures forall x :: x != c ==> Claim(t, d, x) == Claim(s, d, x)
    ensures Claim(t, d, c) == if t.threads[c].phase == ToFinish then None else Claim(s, d, c)
    ensures c in s.monitors[d].reserved ==> Claim(s, d, c) == Some(s.monitors[d].reserved[c])
  {
    hide Belongs, SlotPlaced, Once, ClaimsApart, FuturePlaced, FreePlaced, ClaimPlaced;
    var m, m' := s.monitors[d], t.monitors[d];
    assert forall x :: x != c ==> (x in m'.reserved <==> x in m.reserved);
  }

  lemma EnterClaimPlaced(s: State, t: State, d: Device, c: Component, x: Component)
    requires Enters(s, t, d, c) && DevicePlaced(s, d)
    requires x != c ==> Claim(t, d, x) == Claim(s, d, x)
    requires Claim(t, d, c) == if t.threads[c].phase == ToFinish then None else Claim(s, d, c)
    requires c in s.monitors[d].reserved ==> Claim(s, d, c) == Some(s.monitors[d].reserved[c])
    ensures ClaimPlaced(t, d, x)
  {
    hide Claim, Belongs, SlotPlaced, Once, ClaimsApart, FuturePlaced, FreePlaced;
    var m, m' := s.monitors[d], t.monitors[d];
    assert ClaimPlaced(s, d, x);
    OneClaim(s, d, x, c);
    assert x in m'.reserved ==> x in m.reserved;
    if x != c && Claim(s, d, x).Some? {
      var i := Claim(s, d, x).value;
      assert m'.slots[i] == m.slots[i];
    }
  }

  lemma EnterSlotPlaced(s: State, t: State, d: Device, c: Component, i: nat)
    requires Enters(s, t, d, c) && DevicePlaced(s, d) && i < |s.monitors[d].slots|
    requires forall x :: x != c ==> Claim(t, d, x) == Claim(s, d, x)
    requires Claim(t, d, c) == if t.threads[c].phase == ToFinish then None else Claim(s, d, c)
    requires c in s.monitors[d].reserved ==> Claim(s, d, c) == Some(s.monitors[d].reserved[c])
    requires c !in s.monitors[d].reserved ==> Claim(s, d, c).None?
    requires c in s.monitors[d].reserved ==> !Listed(s, d, c)
    ensures SlotPlaced(t, d, i)
  {
    hide Claim, ClaimPlaced, ClaimsApart, FuturePlaced, FreePlaced, Once;
    var m, m' := s.monitors[d], t.monitors[d];
    assert SlotPlaced(s, d, i);
    if Claimed(s, d, i) && m'.slots[i] == m.slots[i] { StillClaimed(s, t, d, c, i); }
  }

  lemma EnterDevice(s: State, t: State, d: Device, c: Component)
    requires Placed(s) && Enters(s, t, d, c)
    ensures DevicePlaced(t, d) && ThreadPlaced(t, c)
    ensures forall x :: x != c ==> Claim(t, d, x) == Claim(s, d, x) && (Listed(t, d, x) <==> Listed(s, d, x))
  {
    hide Placed, Claim, SlotPlaced, Belongs, ClaimsApart;
    var m, m' := s.monitors[d], t.monitors[d];
    ToAddSeen(s, d, c);
    PlacedParts(s, d);
    EnterClaims(s, t, d, c);
    ClaimsApartAfter(s, t, d, c);
    assert ClaimPlaced(s, d, c);
    forall x ensures ClaimPlaced(t, d, x) { EnterClaimPlaced(s, t, d, c, x); }
    if c in m.reserved { assert m.slots[m.reserved[c]].None? ==> m'.slots[m.reserved[c]] == Some(c); }
    forall x | x != c ensures Listed(t, d, x) <==> Listed(s, d, x) { EnteredListed(m, c, x); }
    forall i | 0 <= i < |m.slots| && m.slots[i].Some? ensures Leaving(t, d, i) <==> Leaving(s, d, i) {}
    forall i | 0 <= i < |m'.slots| ensures SlotPlaced(t, d, i) { EnterSlotPlaced(s, t, d, c, i); }
  }

  lemma ToAddSeen(s: State, d: Device, c: Component)
    requires Placed(s) && d in s.monitors && At(s, c, ToAdd) && s.threads[c].destination == Some(d)
    ensures DevicePlaced(s, d) && (Listed(s, d, c) <==> c !in s.monitors[d].reserved)
    ensures c !in s.monitors[d].reserved ==> Claim(s, d, c).None?
  {
    assert ThreadPlaced(s, c);
  }

  lemma EnteredListed(m: Monitor, c: Component, x: Component)
    requires c in m.reserved ==> 0 <= m.reserved[c] < |m.slots| == |m.awaited|
    requires x != c
    ensures Some(x) in Enter(m, c).slots <==> Some(x) in m.slots
  {
    if Some(x) in m.slots {
      var i :| 0 <= i < |m.slots| && m.slots[i] == Some(x);
      assert Enter(m, c).slots[i] == Some(x);
    }
  }

  lemma AddPlaced(s: State, c: Component)
    requires Apart(s) && Placed(s) && Enabled(s, Add(c))
    ensures Placed(AddStep(s, c))
  {
    hide DevicePlaced, Claim, Listed, Belongs, SameAt, Enter;
    var t, d := AddStep(s, c), s.threads[c].destination.value;
    EnterDevice(s, t, d, c);
    forall e | e in s.monitors && e != d ensures SameAt(s, t, e, c) { ElsewhereEntering(s, t, d, e, c); }
    Assemble(s, t, d, {c});
  }

  // ----- the cycles

  lemma ReplaceDevice(s: State, t: State, d: Device, c: Component)
    requires Apart(s) && Placed(s) && c in s.inCycle && CyclePlaced(s, c)
    requires s.threads[c].destination == Some(d) && d in s.monitors
    requires FindIndex(s.monitors[d].slots, s.inCycle[c].fifth.value) >= 0
    requires var m := s.monitors[d];
      t.monitors == s.monitors[d := m.(slots := m.slots[FindIndex(m.slots, s.inCycle[c].fifth.value) := Some(c)])]
    requires t.threads == s.threads - {c}
    ensures DevicePlaced(t, d) && Listed(t, d, c)
    ensures forall x :: x != c && x != s.inCycle[c].fifth.value ==> (Listed(t, d, x) <==> Listed(s, d, x))
  {
    hide Placed, Apart;
    var m, m', r := s.monitors[d], t.monitors[d], s.inCycle[c].fifth.value;
    var k := FindIndex(m.slots, r);
    CyclingSeen(s, d, c);
    assert m.slots[k] == Some(r) && m'.slots[k] == Some(c);
    forall x | x != c && x != r ensures Listed(t, d, x) <==> Listed(s, d, x) { ReplacedListed(m.slots, k, r, c, x); }
    forall i | 0 <= i < |m.slots| && i != k ensures Leaving(t, d, i) <==> Leaving(s, d, i) {}
    assert !Leaving(s, d, k);
    forall x ensures Claim(t, d, x) == Claim(s, d, x) && ClaimPlaced(t, d, x) {
      assert ClaimPlaced(s, d, x) && ClaimPlaced(s, d, c);
    }
    forall i | 0 <= i < |m'.slots| ensures SlotPlaced(t, d, i) {
      assert SlotPlaced(s, d, i);
      if Claimed(s, d, i) {
        var x :| Claim(s, d, x) == Some(i);
        assert Claim(t, d, x) == Some(i);
      }
    }
  }

  lemma ReplacedListed(slots: seq<Option<Component>>, k: nat, r: Component, c: Component, x: Component)
    requires k < |slots| && slots[k] == Some(r) && x != c && x != r
    ensures Some(x) in slots[k := Some(c)] <==> Some(x) in slots
  {
    if Some(x) in slots {
      var i :| 0 <= i < |slots| && slots[i] == Some(x);
      assert slots[k := Some(c)][i] == Some(x);
    }
  }

  lemma CyclingSeen(s: State, d: Device, c: Component)
    requires Apart(s) && Placed(s) && c in s.inCycle && CyclePlaced(s, c)
    requires s.threads[c].destination == Some(d) && d in s.monitors
    ensures DevicePlaced(s, d) && !Listed(s, d, c)
  {
    Seen(s, d, c);
  }

  lemma InCyclePlaced(s: State, c: Component)
    requires Apart(s) && Placed(s) && Enabled(s, AddInCycle(c))
    ensures Placed(AddInCycleStep(s, c))
  {
    hide DevicePlaced, Claim;
    var t, d, r := AddInCycleStep(s, c), s.threads[c].destination.value, s.inCycle[c].fifth.value;
    assert CyclePlaced(s, c);
    ReplaceDevice(s, t, d, c);
    forall e | e in t.monitors && e != d ensures DevicePlaced(t, e) {
      forall x ensures SameAt(s, t, e, x) { CycleElsewhere(s, t, e, c, x); }
      DeviceFrame(s, t, e);
    }
    forall x | x in t.threads ensures ThreadPlaced(t, x) { OtherThread(s, t, d, c, r, x); }
    forall x | x in t.inCycle ensures CyclePlaced(t, x) { OtherInCycle(s, t, d, c, r, x); }
  }

  lemma CycleElsewhere(s: State, t: State, e: Device, c: Component, x: Component)
    requires e in s.monitors && DevicePlaced(s, e) && e in t.monitors && t.monitors[e] == s.monitors[e]
    requires c in s.threads && s.threads[c].phase == Cycling && t.threads == s.threads - {c}
    ensures SameAt(s, t, e, x)
  {
    Seen(s, e, x);
  }

  lemma OtherThread(s: State, t: State, d: Device, c: Component, r: Component, x: Component)
    requires Placed(s) && x in t.threads && t.threads == s.threads - {c} && c in s.inCycle && CyclePlaced(s, c)
    requires s.threads[c].destination == Some(d) && s.inCycle[c].fifth == Some(r) && d in s.monitors && d in t.monitors
    requires t.monitors.Keys == s.monitors.Keys
    requires forall e :: e in s.monitors && e != d ==> t.monitors[e] == s.monitors[e]
    requires t.monitors[d].reserved == s.monitors[d].reserved
    requires forall y :: y != c && y != r ==> (Listed(t, d, y) <==> Listed(s, d, y))
    ensures ThreadPlaced(t, x)
  {
    hide DevicePlaced;
    assert ThreadPlaced(s, x);
  }

  /** Whoever replaces c finds it where it was; c is on its new device as well now. */
  lemma OtherInCycle(s: State, t: State, d: Device, c: Component, r: Component, x: Component)
    requires Apart(s) && Placed(s) && x in s.inCycle && x != c && c in s.inCycle && CyclePlaced(s, c)
    requires t.threads == s.threads - {c} && t.inCycle == s.inCycle - {c}
    requires s.threads[c].destination == Some(d) && s.inCycle[c].fifth == Some(r) && d in s.monitors && d in t.monitors
    requires t.monitors.Keys == s.monitors.Keys
    requires forall e :: e in s.monitors && e != d ==> t.monitors[e] == s.monitors[e]
    requires Listed(t, d, c) && forall y :: y != c && y != r ==> (Listed(t, d, y) <==> Listed(s, d, y))
    ensures CyclePlaced(t, x)
  {
    hide DevicePlaced;
    assert CyclePlaced(s, x);
    var q := s.inCycle[x].fifth.value;
    var e := s.threads[x].destination.value;
    assert q != r;
    if q == c {
      assert s.threads[c].source == Some(e) && e != d;
      assert Listed(t, e, c);
    } else {
      assert forall f: Device :: Listed(s, f, q) ==> Listed(t, f, q);
      if q !in s.threads {
        var f: Device :| f != e && Listed(s, f, q);
        assert Listed(t, f, q);
      }
    }
  }

  function Next(all: seq<Waiting>, i: nat): Waiting
    requires i < |all|
  {
    all[if i + 1 == |all| then 0 else i + 1]
  }

  ghost predicate Earlier(s: State, v: Waiting) {
    && v.component in s.threads && s.threads[v.component].source == v.source && v.source.Some?
    && s.threads[v.component].destination == Some(v.destination) && s.threads[v.component].phase in {ToReserve, Queued}
  }

  ghost predicate SameEarlier(s: State, all: seq<Waiting>) { forall i :: 0 <= i < |all| ==> Earlier(s, all[i]) }

  lemma QueuedEarlier(s: State, v: Waiting)
    requires Inv(s) && v.destination in s.queues && v in s.queues[v.destination] && v.source.Some?
    ensures Earlier(s, v)
  {
    hide WaitingValid, ThreadsValid, AllDistinct, WaitersQueued;
  }

  lemma CycleLinks(q: Queues, w: Waiting, path: seq<Waiting>)
    requires ClosesCycle(q, w, path)
    ensures var all := [w] + path;
      && (forall i :: 0 <= i < |all| ==> all[i].source.Some?)
      && (forall i :: 0 <= i < |all| ==> Next(all, i).source == Some(all[i].destination))
  {
    var all := [w] + path;
    forall i | 0 <= i < |all| ensures Next(all, i).source == Some(all[i].destination) {
      if i + 1 < |all| { assert all[i].destination == all[i + 1].source.value; }
    }
  }

  /** The transfers of a cycle that closes, the new one and those found in the queues. */
  lemma CycleThreads(s: State, c: Component, path: seq<Waiting>)
    requires Inv(s) && Enabled(s, Reserve(c, path)) && path != []
    ensures CycleOf(s, [NewWaiting(s, c)] + path)
  {
    hide WaitingValid, ThreadsValid, QueuesMatch, ClosesCycle, Distinct, MonitorsValid;
    var w := NewWaiting(s, c);
    var all := [w] + path;
    StorageSystem.CycleReady(s, c, path);
    ReleaseMembers(s.queues, w, path);
    CycleLinks(Enqueued(s.queues, w), w, path);
    forall i | 0 <= i < |all| ensures Earlier(s, all[i]) {
      if i > 0 {
        assert all[i] == path[i - 1] && path[i - 1] in path;
        QueuedEarlier(s, all[i]);
      }
    }
  }

  ghost predicate CycleOf(s: State, all: seq<Waiting>) {
    && SameEarlier(s, all)
    && (forall i, j :: 0 <= i < j < |all| ==> all[i].component != all[j].component)
    && (forall i :: 0 <= i < |all| ==> Next(all, i).source == Some(all[i].destination))
  }

  ghost predicate ReleasedTo(s: State, t: State, all: seq<Waiting>) {
    && t.monitors == s.monitors && t.threads == AllCycling(s.threads, Components(all))
    && t.inCycle == ReleasedMap(s.inCycle, all, |all|)
  }

  lemma {:induction false} ReleasedMapElse(inCycle: map<Component, Waiting>, path: seq<Waiting>, n: nat, x: Component)
    requires n <= |path| && forall i :: 0 <= i < n ==> path[i].component != x
    ensures x in ReleasedMap(inCycle, path, n) <==> x in inCycle
    ensures x in inCycle ==> ReleasedMap(inCycle, path, n)[x] == inCycle[x]
  {
    if n > 0 { ReleasedMapElse(inCycle, path, n - 1, x); }
  }

  /** Which transfers are in a cycle after the release: the members of this one and those before. */
  lemma InCycleAfter(s: State, t: State, all: seq<Waiting>, x: Component) returns (i: int)
    requires CycleOf(s, all) && ReleasedTo(s, t, all) && x in t.inCycle
    ensures -1 <= i < |all|
    ensures i >= 0 ==> x == all[i].component && t.inCycle[x] == Released(all, i)
    ensures i >= 0 ==> x in t.threads && t.threads[x] == Thread(all[i].source, Some(all[i].destination), Cycling)
    ensures i < 0 ==> x in s.inCycle && t.inCycle[x] == s.inCycle[x]
    ensures i < 0 ==> forall j :: 0 <= j < |all| ==> all[j].component != x
  {
    hide ReleasedMap;
    if k :| 0 <= k < |all| && all[k].component == x {
      StorageSystem.ReleasedMapAt(s.inCycle, all, |all|, k);
      InComponents(all, k);
      return k;
    }
    ReleasedMapElse(s.inCycle, all, |all|, x);
    return -1;
  }

  lemma InComponents(all: seq<Waiting>, k: nat)
    requires k < |all|
    ensures all[k].component in Components(all)
  {
    assert all[k] in all;
  }

  /** The component that member i replaces: in a slot of the device that i waits for. */
  lemma NextMember(s: State, t: State, all: seq<Waiting>, i: nat)
    requires Placed(s) && CycleOf(s, all) && ReleasedTo(s, t, all) && i < |all|
    ensures var next := Next(all, i).component;
      && Released(all, i).fifth == Some(next) && Listed(s, all[i].destination, next) && next in t.threads
      && t.threads[next].phase == Cycling && t.threads[next].source == Some(all[i].destination)
      && next in s.threads && s.threads[next].phase in {ToReserve, Queued}
  {
    hide ReleasedMap, DevicePlaced;
    var k: nat := if i + 1 == |all| then 0 else i + 1;
    assert ThreadPlaced(s, all[k].component);
    InComponents(all, k);
    assert Next(all, i) == all[k];
  }

  lemma ReleasedCycle(s: State, t: State, all: seq<Waiting>, x: Component)
    requires Apart(s) && Placed(s) && CycleOf(s, all) && ReleasedTo(s, t, all) && x in t.inCycle
    ensures CyclePlaced(t, x)
  {
    hide ReleasedMap, DevicePlaced, CycleOf, Listed, Claim;
    var i := InCycleAfter(s, t, all, x);
    if i >= 0 {
      NextMember(s, t, all, i);
      MemberApart(s, all, i);
      SameListed(s, t, all[i].destination, Next(all, i).component);
    } else {
      assert CyclePlaced(s, x);
      var c := s.inCycle[x].fifth.value;
      NotMember(s, all, x);
      NotMember(s, all, c);
      forall d: Device ensures Listed(t, d, c) <==> Listed(s, d, c) { SameListed(s, t, d, c); }
      CycleFrame(s, t, x);
    }
  }

  lemma SameListed(s: State, t: State, d: Device, x: Component)
    requires t.monitors == s.monitors
    ensures Listed(t, d, x) <==> Listed(s, d, x)
  {
  }

  lemma MemberApart(s: State, all: seq<Waiting>, i: nat)
    requires Apart(s) && CycleOf(s, all) && i < |all|
    ensures all[i].source.Some? && all[i].source != Some(all[i].destination)
  {
  }

  /** Who is in a cycle already, or is no transfer, is no member of the new one. */
  lemma NotMember(s: State, all: seq<Waiting>, x: Component)
    requires CycleOf(s, all) && (x in s.threads ==> s.threads[x].phase == Cycling)
    ensures x !in Components(all) && forall j :: 0 <= j < |all| ==> all[j].component != x
  {
    forall v | v in all ensures v.component != x {
      var j :| 0 <= j < |all| && all[j] == v;
      assert Earlier(s, all[j]);
    }
  }

  lemma OldReplaced(s: State, x: Component)
    requires x in s.inCycle && CyclePlaced(s, x)
    ensures s.inCycle[x].fifth.Some?
    ensures var c := s.inCycle[x].fifth.value; c in s.threads ==> s.threads[c].phase == Cycling
  {
  }

  lemma NextDiffers(s: State, all: seq<Waiting>, i: nat, j: nat)
    requires CycleOf(s, all) && i < |all| && j < |all| && i != j
    ensures Next(all, i).component != Next(all, j).component
  {
    var k, l := if i + 1 == |all| then 0 else i + 1, if j + 1 == |all| then 0 else j + 1;
    assert k != l;
    if k < l { assert all[k].component != all[l].component; } else { assert all[l].component != all[k].component; }
  }

  lemma ReleasedApart(s: State, t: State, all: seq<Waiting>, x: Component, y: Component)
    requires Placed(s) && CycleOf(s, all) && ReleasedTo(s, t, all) && x in t.inCycle && y in t.inCycle && x != y
    ensures t.inCycle[x].fifth != t.inCycle[y].fifth
  {
    hide ReleasedMap, DevicePlaced, Listed, ReleasedTo, CycleOf, CyclePlaced, ThreadPlaced, Next;
    var i := InCycleAfter(s, t, all, x);
    var j := InCycleAfter(s, t, all, y);
    if i >= 0 { NextMember(s, t, all, i); } else { OldReplaced(s, x); }
    if j >= 0 { NextMember(s, t, all, j); } else { OldReplaced(s, y); }
    if i >= 0 && j >= 0 { NextDiffers(s, all, i, j); }
  }

  lemma ReleasePlaced(s: State, t: State, all: seq<Waiting>)
    requires Apart(s) && Placed(s) && CycleOf(s, all) && ReleasedTo(s, t, all)
    ensures Placed(t)
  {
    hide DevicePlaced, ReleasedMap, Claim, Listed, CyclePlaced, CycleOf;
    forall d | d in t.monitors ensures DevicePlaced(t, d) {
      forall x ensures SameAt(s, t, d, x) { ReleasedAt(s, t, d, all, x); }
      DeviceFrame(s, t, d);
    }
    forall x | x in t.threads ensures ThreadPlaced(t, x) { ReleasedThread(s, t, all, x); }
    forall x | x in t.inCycle ensures CyclePlaced(t, x) { ReleasedCycle(s, t, all, x); }
    forall x, y | x in t.inCycle && y in t.inCycle && x != y ensures t.inCycle[x].fifth != t.inCycle[y].fifth {
      ReleasedApart(s, t, all, x, y);
    }
  }

  lemma ReleasedThread(s: State, t: State, all: seq<Waiting>, x: Component)
    requires Placed(s) && ReleasedTo(s, t, all) && x in t.threads
    ensures ThreadPlaced(t, x)
  {
    hide DevicePlaced, ReleasedMap;
    assert ThreadPlaced(s, x);
  }

  lemma ReleasedAt(s: State, t: State, d: Device, all: seq<Waiting>, x: Component)
    requires CycleOf(s, all) && ReleasedTo(s, t, all) && d in s.monitors && DevicePlaced(s, d)
    ensures SameAt(s, t, d, x)
  {
    Seen(s, d, x);
    if x in Components(all) {
      var v :| v in all && v.component == x;
      var i :| 0 <= i < |all| && all[i] == v;
    }
  }

  // ----- every step

  lemma InvApart(s: State)
    requires Inv(s)
    ensures Apart(s)
  {
  }

  lemma ReserveKeepsPlaces(s: State, c: Component, path: seq<Waiting>)
    requires Inv(s) && Placed(s) && Enabled(s, Reserve(c, path))
    ensures Placed(ReserveStep(s, c, path))
  {
    hide Inv, Placed, ReleasedMap, ClosesCycle, TakeSlot, ClaimFuture, AllCycling;
    InvApart(s);
    var d := s.threads[c].destination.value;
    var m := s.monitors[d];
    if m.availableSlots > 0 {
      TakePlaced(s, c, d);
    } else if path != [] {
      CycleThreads(s, c, path);
      ReleasePlaced(s, ReserveStep(s, c, path), [NewWaiting(s, c)] + path);
    } else if m.future == [] {
      QueuedPlaced(s, c, Enqueued(s.queues, NewWaiting(s, c)));
    } else {
      ClaimKept(s, c, d, s.queues);
    }
  }

  /** The longest waiting transfer belongs to a thread that waits for this device. */
  lemma HeadQueued(s: State, d: Device)
    requires Inv(s) && d in s.queues && s.queues[d] != []
    ensures var h := s.queues[d][0].component;
      h in s.threads && s.threads[h].phase == Queued && s.threads[h].destination == Some(d)
  {
    assert s.queues[d][0] in s.queues[d];
  }

  lemma SignalKeepsPlaces(s: State, c: Component)
    requires Inv(s) && Placed(s) && Enabled(s, Signal(c))
    ensures Placed(SignalStep(s, c))
  {
    hide Inv, Placed, ClaimFuture;
    InvApart(s);
    var d := s.threads[c].source.value;
    var m := s.monitors[d];
    AnnouncePlaced(s, c, d);
    var t := s.(monitors := s.monitors[d := m.(future := m.future + [FindIndex(m.slots, c)])],
                threads := WithPhase(s.threads, c, ToRemove));
    if s.queues[d] != [] {
      HeadQueued(s, d);
      var h := s.queues[d][0].component;
      ClaimKept(t, h, d, s.queues[d := s.queues[d][1..]]);
      var u := SignalStep(s, c);
      assert u.monitors == t.monitors[d := ClaimFuture(t.monitors[d], h)];
      assert u == t.(monitors := t.monitors[d := ClaimFuture(t.monitors[d], h)],
                     queues := s.queues[d := s.queues[d][1..]],
                     threads := WithPhase(t.threads, h, AfterReserve(t.threads[h])));
    }
  }

  /** Every step keeps all components where their transfers say, except that a transfer has to
      begin with its component in one slot, on its source, or in none. */
  lemma StepPlaced(s: State, e: Event)
    requires Inv(s) && Placed(s) && Enabled(s, e) && Valid(s, e)
    ensures Placed(Step(s, e))
  {
    hide Inv, Placed, Enabled, ReserveStep, SignalStep, RemoveStep, AddStep, AddInCycleStep;
    InvApart(s);
    match e
    case Begin(c, source, destination) => BeginPlaced(s, c, source, destination);
    case Reserve(c, path) => ReserveKeepsPlaces(s, c, path);
    case Signal(c) => SignalKeepsPlaces(s, c);
    case Remove(c, woken) => RemovePlaced(s, c, woken);
    case Add(c) => AddPlaced(s, c);
    case AddInCycle(c) => InCyclePlaced(s, c);
    case Finish(c) => FinishPlaced(s, c);
  }

  /** A transfer that began otherwise is not where it says. */
  lemma PlacedValid(s: State, e: Event)
    requires Enabled(s, e) && Placed(Step(s, e))
    ensures Valid(s, e)
  {
    if e.Begin? {
      var t := Step(s, e);
      assert ThreadPlaced(t, e.c);
      forall d: Device | Listed(s, d, e.c) ensures e.source == Some(d) {
        assert Listed(t, d, e.c) && DevicePlaced(t, d);
        Seen(t, d, e.c);
      }
    }
  }

  // ----- runs

  ghost predicate NoneTwice(s: State) { forall d :: d in s.monitors ==> Once(s.monitors[d].slots) }

  lemma InitialPlaced(s: State)
    requires Initial(s)
    ensures Placed(s) <==> NoneTwice(s)
  {
    if NoneTwice(s) {
      forall d | d in s.monitors ensures DevicePlaced(s, d) {
        var m := s.monitors[d];
        var capacity, components :| |components| <= capacity && m == InitialMonitor(capacity, components);
        InitialFree(m, capacity, components);
        forall c ensures Claim(s, d, c).None? {}
        forall i | 0 <= i < |m.slots| ensures SlotPlaced(s, d, i) {}
      }
    } else {
      var d :| d in s.monitors && !Once(s.monitors[d].slots);
      assert !DevicePlaced(s, d);
    }
  }

  lemma InitialFree(m: Monitor, capacity: nat, components: seq<Component>)
    requires |components| <= capacity && m == InitialMonitor(capacity, components)
    ensures FreePlaced(m) && forall i :: 0 <= i < |m.slots| && m.slots[i].None? ==> i in m.free
  {
    var size := |components|;
    forall i | 0 <= i < |m.slots| && m.slots[i].None? ensures i in m.free { assert m.free[i - size] == i; }
  }

  ghost predicate ValidUpTo(states: seq<State>, events: seq<Event>, n: nat)
    requires Run(states, events) && n < |states|
  {
    NoneTwice(states[0]) && forall k :: 0 <= k < n ==> Valid(states[k], events[k])
  }

  /** Along every run: up to any moment all components are where their transfers say, if and only
      if none was twice on a device at first, and up to that moment every transfer began with its
      component in one slot, on its source, or in none. */
  lemma {:induction false} PlacedIff(states: seq<State>, events: seq<Event>, n: nat)
    requires Run(states, events) && n < |states|
    ensures (forall k :: 0 <= k <= n ==> Placed(states[k])) <==> ValidUpTo(states, events, n)
  {
    hide Placed, Enabled, Step, Valid, NoneTwice, Initial;
    if n == 0 {
      InitialPlaced(states[0]);
    } else {
      PlacedIff(states, events, n - 1);
      RunInv(states, events, n - 1);
      var s, e := states[n - 1], events[n - 1];
      assert Enabled(s, e) && states[n - 1 + 1] == Step(s, e);
      if Placed(s) && Valid(s, e) { StepPlaced(s, e); }
      if Placed(states[n]) { PlacedValid(s, e); }
    }
  }

  /** A transfer that is done has left its component in a slot of its destination, and nowhere else. */
  lemma FinishedThere(states: seq<State>, events: seq<Event>, n: nat, c: Component, d: Device)
    requires Run(states, events) && n < |states| && ValidUpTo(states, events, n)
    requires c in states[n].threads && states[n].threads[c].phase == ToFinish
    ensures Listed(states[n], d, c) <==> states[n].threads[c].destination == Some(d)
  {
    hide Run, ValidUpTo, DevicePlaced;
    PlacedIff(states, events, n);
    var s := states[n];
    assert Placed(s) && ThreadPlaced(s, c);
    if Listed(s, d, c) { Seen(s, d, c); }
  }
}
