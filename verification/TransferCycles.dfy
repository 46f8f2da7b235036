/** The search for a cycle of waiting transfers that a newly queued transfer completes. */
module TransferCycles {
  import opened Digraph
  import opened Prelude

  type Device = nat
  type Component = nat

  /** A queued transfer. `second`, `latched` and `fifth` are set when it is released as part
      of a cycle: the transfer to wake next, the common latch, the component it replaces. */
  datatype Waiting = Waiting(component: Component, source: Option<Device>, destination: Device,
                             second: Option<Component>, latched: bool, fifth: Option<Component>)

  /** For every device, the transfers waiting to enter it, in order of arrival. */
  type Queues = map<Device, seq<Waiting>>

  predicate Followable(w: Waiting) { w.source.Some? && !w.latched }

  predicate QueuesValid(q: Queues) {
    forall d, w :: d in q && w in q[d] ==> w.destination == d && (w.source.Some? ==> w.source.value in q)
  }

  function Sources(ws: seq<Waiting>): set<Device> {
    set w | w in ws && Followable(w) :: w.source.value
  }

  /** An edge from a device to each device that a transfer waiting to enter it would leave. */
  function WaitGraph(q: Queues): Graph<Device> {
    map d | d in q :: Sources(q[d])
  }

  lemma WaitGraphClosed(q: Queues)
    requires QueuesValid(q)
    ensures Closed(WaitGraph(q))
  {
  }

  /** `first` followed by `rest` is a simple cycle: the destination of each transfer is the
      source of the next one, and the last one's destination is the source of the first. */
  ghost predicate ClosesCycle(q: Queues, first: Waiting, rest: seq<Waiting>) {
    var c := [first] + rest;
    && rest != [] && first.source.Some?
    && (forall i :: 0 <= i < |c| ==> c[i].source.Some? && c[i].destination in q && c[i] in q[c[i].destination])
    && (forall i :: 0 <= i < |rest| ==> !rest[i].latched)
    && (forall i {:trigger c[i]} :: 0 <= i < |c| - 1 ==> c[i].destination == c[i + 1].source.value)
    && c[|c| - 1].destination == first.source.value
    && (forall i, j :: 0 <= i < j < |c| ==> c[i].source != c[j].source)
  }

  // ----- the stacks of the search

  /** The three stacks, which always have the same height. */
  datatype Stacks = Stacks(toVisit: seq<Option<Device>>, toKeep: seq<bool>, path: seq<Option<Waiting>>)

  predicate Shape(st: Stacks, first: Waiting) {
    var n := |st.toVisit|;
    && n == |st.toKeep| == |st.path| && n >= 1
    && st.toVisit[0] == Some(first.destination) && st.path[0] == None
    && (forall i :: 1 <= i < n ==> st.path[i].Some? && st.toVisit[i] == st.path[i].value.source)
    && (n >= 2 ==> st.path[1] == Some(first))
    && (forall i :: 2 <= i < n ==> Followable(st.path[i].value))
  }

  /** Entry j is the one whose expansion pushed entry i. */
  ghost predicate ParentOf(q: Queues, st: Stacks, j: nat, i: nat)
    requires |st.toVisit| == |st.toKeep| == |st.path|
  {
    && 1 <= j < i < |st.toVisit| && !st.toKeep[j]
    && (forall k :: j < k < i ==> st.toKeep[k])
    && st.toVisit[j].Some? && st.toVisit[j].value in q
    && st.path[i].Some? && st.path[i].value in q[st.toVisit[j].value]
  }

  ghost predicate HasParent(q: Queues, st: Stacks, i: nat)
    requires |st.toVisit| == |st.toKeep| == |st.path|
  {
    exists j: nat :: ParentOf(q, st, j, i)
  }

  ghost predicate Linked(q: Queues, st: Stacks)
    requires |st.toVisit| == |st.toKeep| == |st.path|
  {
    forall i :: 2 <= i < |st.toVisit| ==> HasParent(q, st, i)
  }

  /** The expanded entries below the top belong to different visited devices. */
  ghost predicate Separate(st: Stacks, visited: set<Device>)
    requires |st.toVisit| == |st.toKeep| == |st.path|
  {
    var n := |st.toVisit|;
    && (forall i :: 1 <= i < n - 1 && !st.toKeep[i] ==> st.toVisit[i].Some? && st.toVisit[i].value in visited)
    && (forall i, j :: 1 <= i < j < n - 1 && !st.toKeep[i] && !st.toKeep[j] ==> st.toVisit[i] != st.toVisit[j])
  }

  ghost predicate Pending(st: Stacks, d: Device)
    requires |st.toVisit| == |st.toKeep| == |st.path|
  {
    exists i :: 1 <= i < |st.toVisit| && st.toKeep[i] && st.toVisit[i] == Some(d)
  }

  /** What a visited device leads to is visited or still on the stack. */
  ghost predicate Complete(q: Queues, st: Stacks, visited: set<Device>, first: Waiting)
    requires |st.toVisit| == |st.toKeep| == |st.path|
  {
    && visited <= q.Keys && first.destination !in visited
    && (forall d, e :: d in visited && e in Sources(q[d]) ==> e in visited || Pending(st, e))
    && (first.source.Some? ==> first.source.value in visited || Pending(st, first.source.value))
    && (first.source.None? && |st.toVisit| >= 2 ==> st.toKeep[1])
  }

  ghost predicate Searching(q: Queues, st: Stacks, visited: set<Device>, first: Waiting) {
    && Shape(st, first) && (|st.toKeep| > 0 ==> st.toKeep[0])
    && Linked(q, st) && Separate(st, visited) && Complete(q, st, visited, first)
  }

  /** The transfers pushed by expanding a device: the first waiting one ends on top. */
  function PushOrder(ws: seq<Waiting>): (r: seq<Waiting>)
    ensures forall w :: w in r <==> w in ws && Followable(w)
  {
    if ws == [] then [] else PushOrder(ws[1..]) + if Followable(ws[0]) then [ws[0]] else []
  }

  function Sourced(ws: seq<Waiting>): seq<Option<Device>> { seq(|ws|, i requires 0 <= i < |ws| => ws[i].source) }

  function Somes(ws: seq<Waiting>): seq<Option<Waiting>> { seq(|ws|, i requires 0 <= i < |ws| => Some(ws[i])) }

  function Trues(n: nat): seq<bool> { seq(n, i => true) }

  function Pushed(st: Stacks, ws: seq<Waiting>): Stacks {
    Stacks(st.toVisit + Sourced(ws), st.toKeep + Trues(|ws|), st.path + Somes(ws))
  }

  /** The top entry marked as expanded. */
  function Marked(st: Stacks): Stacks
    requires st.toKeep != []
  {
    st.(toKeep := st.toKeep[|st.toKeep| - 1 := false])
  }

  function Popped(st: Stacks): Stacks
    requires st.toVisit != [] && st.toKeep != [] && st.path != []
  {
    Stacks(st.toVisit[..|st.toVisit| - 1], st.toKeep[..|st.toKeep| - 1], st.path[..|st.path| - 1])
  }

  lemma StartsSearching(q: Queues, st: Stacks, first: Waiting)
    requires st == Stacks([Some(first.destination), first.source], [true, true], [None, Some(first)])
    ensures Searching(q, st, {}, first)
  {
    if first.source.Some? { assert st.toKeep[1] && st.toVisit[1] == Some(first.source.value); }
  }

  ghost predicate SameHeight(st: Stacks) { |st.toVisit| == |st.toKeep| == |st.path| }

  /** A lower part of the stacks keeps its links. */
  lemma LinkedBelow(q: Queues, st: Stacks, st': Stacks, n: nat)
    requires SameHeight(st) && SameHeight(st') && n <= |st.toVisit| && n <= |st'.toVisit|
    requires forall i :: 0 <= i < n ==> st'.toVisit[i] == st.toVisit[i] && st'.path[i] == st.path[i]
    requires forall i :: 0 <= i < n - 1 ==> st'.toKeep[i] == st.toKeep[i]
    requires Linked(q, st)
    ensures forall i :: 2 <= i < n ==> HasParent(q, st', i)
  {
    forall i | 2 <= i < n ensures HasParent(q, st', i) {
      assert HasParent(q, st, i);
      var j: nat :| ParentOf(q, st, j, i);
      assert ParentOf(q, st', j, i);
    }
  }

  lemma PendingIn(st: Stacks, i: nat, d: Device)
    requires SameHeight(st) && 1 <= i < |st.toVisit| && st.toKeep[i] && st.toVisit[i] == Some(d)
    ensures Pending(st, d)
  {
  }

  lemma PopKeeps(q: Queues, st: Stacks, visited: set<Device>, first: Waiting)
    requires Searching(q, st, visited, first) && |st.toVisit| >= 2 && !st.toKeep[|st.toVisit| - 1]
    ensures Searching(q, Popped(st), visited, first)
  {
    var st' := Popped(st);
    LinkedBelow(q, st, st', |st'.toVisit|);
    forall d: Device | Pending(st, d) ensures Pending(st', d) {
      var i :| 1 <= i < |st.toVisit| && st.toKeep[i] && st.toVisit[i] == Some(d);
      PendingIn(st', i, d);
    }
  }

  /** Marking an already visited device as expanded loses nothing. */
  lemma MarkVisited(q: Queues, st: Stacks, visited: set<Device>, first: Waiting)
    requires Searching(q, st, visited, first) && |st.toVisit| >= 2
    requires st.toVisit[|st.toVisit| - 1].Some? && st.toVisit[|st.toVisit| - 1].value in visited
    ensures Searching(q, Marked(st), visited, first)
  {
    LinkedBelow(q, st, Marked(st), |st.toVisit|);
    MarkComplete(q, st, visited, first);
  }

  lemma MarkComplete(q: Queues, st: Stacks, visited: set<Device>, first: Waiting)
    requires SameHeight(st) && Complete(q, st, visited, first) && |st.toVisit| >= 2
    requires st.toVisit[|st.toVisit| - 1].Some? && st.toVisit[|st.toVisit| - 1].value in visited
    requires st.toVisit[1] == first.source
    ensures Complete(q, Marked(st), visited, first)
  {
    var st' := Marked(st);
    forall d: Device | Pending(st, d) && d !in visited ensures Pending(st', d) {
      var i :| 1 <= i < |st.toVisit| && st.toKeep[i] && st.toVisit[i] == Some(d);
      PendingIn(st', i, d);
    }
  }

  /** Expanding a device seen for the first time. */
  lemma ExpandKeeps(q: Queues, st: Stacks, visited: set<Device>, first: Waiting, d: Device)
    requires QueuesValid(q) && Searching(q, st, visited, first) && |st.toVisit| >= 2
    requires st.toVisit[|st.toVisit| - 1] == Some(d) && d in q && d !in visited && d != first.destination
    ensures Searching(q, Pushed(Marked(st), PushOrder(q[d])), visited + {d}, first)
  {
    ExpandShape(st, first, PushOrder(q[d]));
    ExpandLinked(q, st, d);
    ExpandSeparate(st, visited, d, PushOrder(q[d]));
    ExpandComplete(q, st, visited, first, d);
  }

  lemma ExpandShape(st: Stacks, first: Waiting, ws: seq<Waiting>)
    requires Shape(st, first) && |st.toVisit| >= 2 && forall w :: w in ws ==> Followable(w)
    ensures Shape(Pushed(Marked(st), ws), first)
  {
  }

  lemma ExpandLinked(q: Queues, st: Stacks, d: Device)
    requires SameHeight(st) && |st.toVisit| >= 2 && Linked(q, st)
    requires st.toVisit[|st.toVisit| - 1] == Some(d) && d in q
    ensures Linked(q, Pushed(Marked(st), PushOrder(q[d])))
  {
    var n := |st.toVisit|;
    var ws := PushOrder(q[d]);
    var st' := Pushed(Marked(st), ws);
    LinkedBelow(q, st, st', n);
    forall i | n <= i < |st'.toVisit| ensures HasParent(q, st', i) {
      assert st'.path[i] == Some(ws[i - n]);
      assert ParentOf(q, st', n - 1, i);
    }
  }

  lemma ExpandSeparate(st: Stacks, visited: set<Device>, d: Device, ws: seq<Waiting>)
    requires SameHeight(st) && |st.toVisit| >= 2
    requires Separate(st, visited) && d !in visited && st.toVisit[|st.toVisit| - 1] == Some(d)
    ensures Separate(Pushed(Marked(st), ws), visited + {d})
  {
    var st' := Pushed(Marked(st), ws);
    assert forall i :: 1 <= i < |st'.toVisit| && !st'.toKeep[i] ==>
      i < |st.toVisit| && st'.toVisit[i] == st.toVisit[i] && (i < |st.toVisit| - 1 ==> !st.toKeep[i]);
  }

  lemma ExpandComplete(q: Queues, st: Stacks, visited: set<Device>, first: Waiting, d: Device)
    requires SameHeight(st) && |st.toVisit| >= 2
    requires Complete(q, st, visited, first) && d in q && d != first.destination
    requires st.toVisit[|st.toVisit| - 1] == Some(d) && st.toVisit[1] == first.source
    ensures Complete(q, Pushed(Marked(st), PushOrder(q[d])), visited + {d}, first)
  {
    var n := |st.toVisit|;
    var ws := PushOrder(q[d]);
    var st' := Pushed(Marked(st), ws);
    forall e: Device | Pending(st, e) && e != d ensures Pending(st', e) {
      var i :| 1 <= i < |st.toVisit| && st.toKeep[i] && st.toVisit[i] == Some(e);
      PendingIn(st', i, e);
    }
    forall e | e in Sources(q[d]) ensures Pending(st', e) {
      var w :| w in q[d] && Followable(w) && w.source.value == e;
      var k :| 0 <= k < |ws| && ws[k] == w;
      PendingIn(st', n + k, e);
    }
  }

  // ----- soundness: the expanded entries form the cycle

  /** The expanded entries among the lowest m, from the top down. */
  function Expanded(st: Stacks, m: nat): seq<Option<Waiting>>
    requires m <= |st.toKeep| == |st.path|
  {
    if m == 0 then []
    else (if st.toKeep[m - 1] then [] else [st.path[m - 1]]) + Expanded(st, m - 1)
  }

  lemma {:induction false} ExpandedSkip(st: Stacks, j: nat, i: nat)
    requires j <= i <= |st.toKeep| == |st.path|
    requires forall k :: j <= k < i ==> st.toKeep[k]
    ensures Expanded(st, i) == Expanded(st, j)
    decreases i
  {
    if j < i { ExpandedSkip(st, j, i - 1); }
  }

  ghost predicate ParentAt(q: Queues, st: Stacks, ix: seq<nat>, k: nat)
    requires SameHeight(st) && k + 1 < |ix|
  {
    ParentOf(q, st, ix[k + 1], ix[k])
  }

  /** Stack positions from i down to 1, each the parent of the one before. */
  ghost predicate Lineage(q: Queues, st: Stacks, i: nat, ix: seq<nat>)
    requires SameHeight(st)
  {
    && |ix| > 0 && ix[0] == i && ix[|ix| - 1] == 1
    && (forall k :: 0 <= k < |ix| - 1 ==> ParentAt(q, st, ix, k))
  }

  /** The stack positions from the top down of the entries `Expanded` lists. */
  ghost predicate Lists(st: Stacks, m: nat, ix: seq<nat>)
    requires m <= |st.toKeep| == |st.path|
  {
    && |Expanded(st, m)| == |ix|
    && forall k :: 0 <= k < |ix| ==> ix[k] < |st.path| && Expanded(st, m)[k] == st.path[ix[k]]
  }

  lemma ListsCons(st: Stacks, j: nat, i: nat, ix: seq<nat>)
    requires j < i < |st.toKeep| == |st.path| && !st.toKeep[i]
    requires forall k :: j < k < i ==> st.toKeep[k]
    requires Lists(st, j + 1, ix)
    ensures Lists(st, i + 1, [i] + ix)
  {
    ExpandedSkip(st, j + 1, i);
    var e := Expanded(st, j + 1);
    assert Expanded(st, i + 1) == [st.path[i]] + e;
    ListsShift(st.path, e, ix, i);
  }

  lemma ListsShift(path: seq<Option<Waiting>>, e: seq<Option<Waiting>>, ix: seq<nat>, i: nat)
    requires i < |path| && |e| == |ix|
    requires forall k :: 0 <= k < |ix| ==> ix[k] < |path| && e[k] == path[ix[k]]
    ensures var e', ix' := [path[i]] + e, [i] + ix;
      |e'| == |ix'| && forall k :: 0 <= k < |ix'| ==> ix'[k] < |path| && e'[k] == path[ix'[k]]
  {
    var e', ix' := [path[i]] + e, [i] + ix;
    forall k | 0 <= k < |ix'| ensures ix'[k] < |path| && e'[k] == path[ix'[k]] {
      if k > 0 { assert ix'[k] == ix[k - 1] && e'[k] == e[k - 1]; }
    }
  }

  lemma LineageCons(q: Queues, st: Stacks, j: nat, i: nat, ix: seq<nat>)
    requires SameHeight(st) && ParentOf(q, st, j, i) && Lineage(q, st, j, ix)
    ensures Lineage(q, st, i, [i] + ix)
  {
    var ix' := [i] + ix;
    forall k | 0 <= k < |ix'| - 1 ensures ParentAt(q, st, ix', k) {
      if k > 0 { assert ParentAt(q, st, ix, k - 1); }
    }
  }

  lemma {:induction false} Ancestors(q: Queues, st: Stacks, first: Waiting, i: nat) returns (ix: seq<nat>)
    requires Shape(st, first) && Linked(q, st) && st.toKeep[0] && 1 <= i < |st.toVisit| && !st.toKeep[i]
    ensures Lineage(q, st, i, ix) && Lists(st, i + 1, ix)
    decreases i
  {
    if i == 1 {
      ix := [1];
      ExpandedSkip(st, 0, 1);
      assert Expanded(st, 2) == [st.path[1]] + Expanded(st, 1);
    } else {
      assert HasParent(q, st, i);
      var j: nat :| ParentOf(q, st, j, i);
      var ix' := Ancestors(q, st, first, j);
      ix := [i] + ix';
      ListsCons(st, j, i, ix');
      LineageCons(q, st, j, i, ix');
    }
  }

  lemma {:induction false} LineageDescends(q: Queues, st: Stacks, i: nat, ix: seq<nat>, k: nat, l: nat)
    requires SameHeight(st) && Lineage(q, st, i, ix) && k < l < |ix|
    ensures 1 <= ix[l] < ix[k] && ix[l] < |st.toVisit| && !st.toKeep[ix[l]]
    decreases l
  {
    assert ParentAt(q, st, ix, l - 1);
    if k < l - 1 { LineageDescends(q, st, i, ix, k, l - 1); }
  }

  function TransfersAt(st: Stacks, ix: seq<nat>): seq<Waiting>
    requires forall k :: 0 <= k < |ix| ==> ix[k] < |st.path| && st.path[ix[k]].Some?
  {
    seq(|ix|, k requires 0 <= k < |ix| => st.path[ix[k]].value)
  }

  /** Transfer k of c waits to enter the device that the next one would leave. */
  ghost predicate LinkAt(q: Queues, c: seq<Waiting>, k: nat)
    requires k + 1 < |c|
  {
    c[k + 1].source.Some? && c[k + 1].source.value in q && c[k] in q[c[k + 1].source.value] && !c[k].latched
  }

  /** The lineage of an expanded entry for the destination closes a cycle. */
  lemma LineageCloses(q: Queues, st: Stacks, visited: set<Device>, first: Waiting, ix: seq<nat>)
    requires QueuesValid(q) && Shape(st, first) && Separate(st, visited)
    requires var i := |st.toVisit| - 1;
             i >= 2 && Lineage(q, st, i, ix) && !st.toKeep[i] && st.toVisit[i] == Some(first.destination)
    requires first.destination !in visited && first.destination in q && first in q[first.destination]
    requires first.source != Some(first.destination)
    requires forall k :: 0 <= k < |ix| ==> ix[k] < |st.path| && st.path[ix[k]].Some?
    ensures ClosesCycle(q, first, TransfersAt(st, ix[..|ix| - 1]))
  {
    var i := |st.toVisit| - 1;
    var c := TransfersAt(st, ix);
    var m := |c|;
    forall k | 1 <= k < m ensures 1 <= ix[k] < i && !st.toKeep[ix[k]] { LineageDescends(q, st, i, ix, 0, k); }
    forall k | 0 <= k < m - 1 ensures LinkAt(q, c, k) {
      assert ParentAt(q, st, ix, k);
    }
    forall k, l | 0 <= k < l < m ensures c[k].source != c[l].source {
      LineageDescends(q, st, i, ix, k, l);
      assert st.toVisit[ix[k]] == c[k].source && st.toVisit[ix[l]] == c[l].source;
    }
    assert m >= 2;
    FoundCycle(q, first, c);
    assert c[..m - 1] == TransfersAt(st, ix[..m - 1]);
  }

  lemma FoundCycle(q: Queues, first: Waiting, c: seq<Waiting>)
    requires QueuesValid(q) && |c| > 1 && c[|c| - 1] == first
    requires forall k :: 0 <= k < |c| - 1 ==> LinkAt(q, c, k)
    requires first.destination in q && first in q[first.destination]
    requires c[0].source == Some(first.destination)
    requires forall k, l :: 0 <= k < l < |c| ==> c[k].source != c[l].source
    ensures ClosesCycle(q, first, c[..|c| - 1])
  {
    var rest := c[..|c| - 1];
    var d := [first] + rest;
    forall i | 0 <= i < |c| ensures c[i].source.Some? {
      if i > 0 { assert LinkAt(q, c, i - 1); }
    }
    forall i | 0 <= i < |rest|
      ensures !rest[i].latched && rest[i].destination in q && rest[i] in q[rest[i].destination]
      ensures rest[i].destination == c[i + 1].source.value
    {
      assert LinkAt(q, c, i);
    }
    FoundOrder(first, c, rest);
  }

  lemma FoundOrder(first: Waiting, c: seq<Waiting>, rest: seq<Waiting>)
    requires |c| > 1 && c == rest + [first]
    requires forall i :: 0 <= i < |c| ==> c[i].source.Some?
    requires c[0].source == Some(first.destination)
    requires forall i :: 0 <= i < |rest| ==> rest[i].destination == c[i + 1].source.value
    requires forall k, l :: 0 <= k < l < |c| ==> c[k].source != c[l].source
    ensures var d := [first] + rest;
      && (forall i :: 0 <= i < |d| ==> d[i].source.Some?)
      && (forall i {:trigger d[i]} :: 0 <= i < |d| - 1 ==> d[i].destination == d[i + 1].source.value)
      && d[|d| - 1].destination == first.source.value
      && (forall i, j :: 0 <= i < j < |d| ==> d[i].source != d[j].source)
  {
    var d := [first] + rest;
    assert forall i :: 1 <= i < |d| ==> d[i] == c[i - 1];
    assert d[|d| - 1] == rest[|rest| - 1];
  }

  // ----- completeness: a cycle is a path back to the destination

  lemma NothingLeft(q: Queues, visited: set<Device>, first: Waiting)
    requires visited <= q.Keys && first.destination !in visited && first.source.Some?
    requires forall d, e :: d in visited && e in Sources(q[d]) ==> e in visited
    requires first.source.value in visited
    ensures !Leq(WaitGraph(q), first.source.value, first.destination)
  {
    if p :| Path(WaitGraph(q), p, first.source.value, first.destination) {
      StaysVisited(q, visited, p, first.source.value, first.destination);
    }
  }

  lemma {:induction false} StaysVisited(q: Queues, visited: set<Device>, p: seq<Device>, a: Device, b: Device)
    requires visited <= q.Keys && Path(WaitGraph(q), p, a, b) && a in visited
    requires forall d, e :: d in visited && e in Sources(q[d]) ==> e in visited
    ensures b in visited
    decreases |p|
  {
    if |p| > 1 {
      PathTail(WaitGraph(q), p, a, b);
      StaysVisited(q, visited, p[1..], p[1], b);
    }
  }

  /** Along a cycle one gets from the new transfer's source back to its destination. */
  lemma {:induction false} CycleReaches(q: Queues, first: Waiting, rest: seq<Waiting>, k: nat)
    requires QueuesValid(q) && ClosesCycle(q, first, rest) && k < |rest|
    ensures first.source.Some? && rest[k].source.Some?
    ensures Leq(WaitGraph(q), first.source.value, rest[k].source.value)
    decreases |rest| - k
  {
    var c := [first] + rest;
    var g := WaitGraph(q);
    assert c[0] == first && c[k + 1] == rest[k];
    if k + 1 < |rest| { assert c[k + 2] == rest[k + 1]; }
    assert Edge(g, c[k + 1].destination, c[k + 1].source.value);
    if k == |rest| - 1 {
      LeqEdge(g, first.source.value, rest[k].source.value);
    } else {
      CycleReaches(q, first, rest, k + 1);
      assert c[k + 1].destination == c[k + 2].source.value;
      LeqEdge(g, c[k + 1].destination, c[k + 1].source.value);
      LeqTrans(g, first.source.value, rest[k + 1].source.value, rest[k].source.value);
    }
  }

  lemma CycleIsPath(q: Queues, first: Waiting, rest: seq<Waiting>)
    requires QueuesValid(q) && ClosesCycle(q, first, rest)
    ensures first.source.Some?
    ensures Leq(WaitGraph(q), first.source.value, first.destination)
  {
    CycleReaches(q, first, rest, 0);
    var c := [first] + rest;
    assert c[0].destination == c[1].source.value;
  }

  /** A path without repeated nodes. */
  lemma {:induction false} SimplePath(g: Graph<Device>, p: seq<Device>, a: Device, b: Device) returns (r: seq<Device>)
    requires Path(g, p, a, b)
    ensures Path(g, r, a, b) && forall i, j :: 0 <= i < j < |r| ==> r[i] != r[j]
    decreases |p|
  {
    if |p| == 1 {
      r := p;
    } else {
      PathTail(g, p, a, b);
      var t := SimplePath(g, p[1..], p[1], b);
      if k :| 0 <= k < |t| && t[k] == a {
        r := t[k..];
        forall i | 0 <= i < |r| - 1 ensures Edge(g, r[i], r[i + 1]) { assert Edge(g, t[k + i], t[k + i + 1]); }
      } else {
        r := [a] + t;
        forall i | 0 <= i < |r| - 1 ensures Edge(g, r[i], r[i + 1]) { if i > 0 { assert r[i] == t[i - 1]; } }
      }
    }
  }

  /** A transfer waiting to enter a that would leave b. */
  ghost function Follow(q: Queues, a: Device, b: Device): Waiting
    requires Edge(WaitGraph(q), a, b)
    ensures var w := Follow(q, a, b); w in q[a] && !w.latched && w.source == Some(b)
  {
    var w :| w in q[a] && Followable(w) && w.source.value == b;
    w
  }

  /** The transfers along a path, from its end, and then the new one. */
  ghost function Backwards(q: Queues, p: seq<Device>, first: Waiting): seq<Waiting>
    requires forall i :: 0 <= i < |p| - 1 ==> Edge(WaitGraph(q), p[i], p[i + 1])
  {
    seq(|p|, k requires 0 <= k < |p| => if k == |p| - 1 then first else Follow(q, p[|p| - 2 - k], p[|p| - 2 - k + 1]))
  }

  lemma BackwardsLinks(q: Queues, p: seq<Device>, first: Waiting)
    requires forall i :: 0 <= i < |p| - 1 ==> Edge(WaitGraph(q), p[i], p[i + 1])
    requires |p| > 0 && first.source == Some(p[0])
    ensures forall k :: 0 <= k < |p| ==> Backwards(q, p, first)[k].source == Some(p[|p| - 1 - k])
    ensures forall k :: 0 <= k < |p| - 1 ==> LinkAt(q, Backwards(q, p, first), k)
  {
    var c := Backwards(q, p, first);
    forall k | 0 <= k < |p| ensures c[k].source == Some(p[|p| - 1 - k]) {}
    forall k | 0 <= k < |p| - 1 ensures LinkAt(q, c, k) {
      var i := |p| - 2 - k;
      assert Edge(WaitGraph(q), p[i], p[i + 1]) && c[k] == Follow(q, p[i], p[i + 1]);
      assert c[k + 1].source == Some(p[|p| - 1 - (k + 1)]) == Some(p[i]);
    }
  }

  /** When the new transfer's destination can be reached from its source, a cycle exists. */
  lemma CycleFromPath(q: Queues, first: Waiting) returns (rest: seq<Waiting>)
    requires QueuesValid(q) && first.destination in q && first in q[first.destination]
    requires first.source.Some? && first.source != Some(first.destination)
    requires Leq(WaitGraph(q), first.source.value, first.destination)
    ensures ClosesCycle(q, first, rest)
  {
    var g := WaitGraph(q);
    var p0 :| Path(g, p0, first.source.value, first.destination);
    var p := SimplePath(g, p0, first.source.value, first.destination);
    BackwardsLinks(q, p, first);
    var c := Backwards(q, p, first);
    forall k, l | 0 <= k < l < |c| ensures c[k].source != c[l].source {
      assert p[|p| - 1 - l] != p[|p| - 1 - k];
    }
    FoundCycle(q, first, c);
    rest := c[..|c| - 1];
  }

  // ----- the program

  lemma PushedNothing(st: Stacks)
    ensures Pushed(st, PushOrder([])) == st
  {
  }

  lemma PushedOne(st: Stacks, o: seq<Waiting>, w: Waiting)
    ensures var r := Pushed(st, o);
      Pushed(st, o + [w]) == Stacks(r.toVisit + [w.source], r.toKeep + [true], r.path + [Some(w)])
  {
    assert Sourced(o + [w]) == Sourced(o) + [w.source] && Somes(o + [w]) == Somes(o) + [Some(w)];
    assert Trues(|o| + 1) == Trues(|o|) + [true];
    assert st.toVisit + (Sourced(o) + [w.source]) == st.toVisit + Sourced(o) + [w.source];
    assert st.toKeep + (Trues(|o|) + [true]) == st.toKeep + Trues(|o|) + [true];
    assert st.path + (Somes(o) + [Some(w)]) == st.path + Somes(o) + [Some(w)];
  }

  lemma PushedStep(st: Stacks, ws: seq<Waiting>)
    requires ws != []
    ensures var r := Pushed(st, PushOrder(ws[1..]));
      Pushed(st, PushOrder(ws)) ==
        if Followable(ws[0]) then Stacks(r.toVisit + [ws[0].source], r.toKeep + [true], r.path + [Some(ws[0])]) else r
  {
    hide Pushed;
    var o := PushOrder(ws[1..]);
    PushedOne(st, o, ws[0]);
    assert o + [] == o;
  }

  method PushWaiting(st: Stacks, ws: seq<Waiting>) returns (r: Stacks)
    requires |st.toVisit| == |st.toKeep| == |st.path|
    ensures r == Pushed(st, PushOrder(ws))
  {
    hide Pushed, PushOrder;
    r := st;
    var i := |ws|;
    PushedNothing(st);
    assert ws[i..] == [];
    while i > 0
      invariant 0 <= i <= |ws| && r == Pushed(st, PushOrder(ws[i..]))
    {
      i := i - 1;
      assert ws[i..][1..] == ws[i + 1..];
      PushedStep(st, ws[i..]);
      if ws[i].source.Some? && !ws[i].latched {
        r := Stacks(r.toVisit + [ws[i].source], r.toKeep + [true], r.path + [Some(ws[i])]);
      }
    }
    assert ws[0..] == ws;
  }

  lemma ExpandedStep(st: Stacks, m: nat)
    requires 0 < m <= |st.toKeep| == |st.path|
    ensures Expanded(st, m) == (if st.toKeep[m - 1] then [] else [st.path[m - 1]]) + Expanded(st, m - 1)
  {
  }

  lemma ExpandedNothing(st: Stacks)
    requires |st.toKeep| == |st.path|
    ensures Expanded(st, 0) == []
  {
  }

  /** Collects the expanded entries, from the top down, and drops the bottom one. */
  method CollectPath(st: Stacks) returns (forwards: seq<Option<Waiting>>)
    requires |st.toKeep| == |st.path| && Expanded(st, |st.path|) != []
    ensures forwards == Expanded(st, |st.path|)[..|Expanded(st, |st.path|)| - 1]
  {
    hide Expanded;
    ghost var all := Expanded(st, |st.path|);
    forwards := [];
    var n := |st.path|;
    while n > 0
      invariant 0 <= n <= |st.path| && forwards + Expanded(st, n) == all
    {
      ExpandedStep(st, n);
      if !st.toKeep[n - 1] { forwards := forwards + [st.path[n - 1]]; }
      n := n - 1;
    }
    ExpandedNothing(st);
    forwards := forwards[..|forwards| - 1];
  }

  function Kept(toKeep: seq<bool>): nat {
    if toKeep == [] then 0 else Kept(toKeep[..|toKeep| - 1]) + if toKeep[|toKeep| - 1] then 1 else 0
  }

  lemma MarkLowersKept(toKeep: seq<bool>)
    requires toKeep != [] && toKeep[|toKeep| - 1]
    ensures Kept(toKeep[|toKeep| - 1 := false]) < Kept(toKeep)
  {
    var marked := toKeep[|toKeep| - 1 := false];
    assert marked[..|marked| - 1] == toKeep[..|toKeep| - 1];
  }

  lemma PopKept(toKeep: seq<bool>)
    requires toKeep != [] && !toKeep[|toKeep| - 1]
    ensures Kept(toKeep[..|toKeep| - 1]) == Kept(toKeep)
  {
  }

  /** Only the bottom entry is left: everything reachable has been visited. */
  lemma OnlyBottom(q: Queues, st: Stacks, visited: set<Device>, first: Waiting)
    requires Searching(q, st, visited, first) && |st.toVisit| == 1
    ensures first.source.Some? ==> !Leq(WaitGraph(q), first.source.value, first.destination)
  {
    if first.source.Some? { NothingLeft(q, visited, first); }
  }

  /** The search finishes with the path found, or with nothing found because there is none. */
  ghost predicate Outcome(q: Queues, st: Stacks, visited: set<Device>, first: Waiting) {
    var n := |st.toVisit|;
    && Shape(st, first)
    && (n >= 2 ==> st.toKeep[0])
    && !st.toKeep[n - 1]
    && (n >= 2 && st.toVisit[n - 1].Some? ==>
          Linked(q, st) && Separate(st, visited) && first.destination !in visited
          && st.toVisit[n - 1] == Some(first.destination))
    && (n >= 2 && st.toVisit[n - 1].None? ==> n == 2)
    && (n == 1 ==> (first.source.Some? ==> !Leq(WaitGraph(q), first.source.value, first.destination)))
  }

  lemma DestinationReached(q: Queues, st: Stacks, visited: set<Device>, first: Waiting)
    requires Searching(q, st, visited, first) && st.toVisit[|st.toVisit| - 1] == Some(first.destination)
    ensures Outcome(q, Marked(st), visited, first)
  {
    LinkedBelow(q, st, Marked(st), |st.toVisit|);
    if |st.toVisit| == 1 { OnlyBottom(q, st, visited, first); }
  }

  lemma Expandable(q: Queues, st: Stacks, visited: set<Device>, first: Waiting)
    requires QueuesValid(q) && Searching(q, st, visited, first)
    requires first.destination in q && first in q[first.destination]
    ensures var current := st.toVisit[|st.toVisit| - 1];
            current.Some? && current != Some(first.destination) ==> |st.toVisit| >= 2 && current.value in q
  {
    var n := |st.toVisit|;
    if n >= 3 {
      assert HasParent(q, st, n - 1);
      var j: nat :| ParentOf(q, st, j, n - 1);
    }
  }

  /** Only an added component, which has no source device, can end the search this way. */
  lemma NoSource(q: Queues, st: Stacks, visited: set<Device>, first: Waiting)
    requires Searching(q, st, visited, first) && st.toVisit[|st.toVisit| - 1] == None
    ensures Outcome(q, Marked(st), visited, first)
  {
  }

  lemma OutcomeCycle(q: Queues, st: Stacks, visited: set<Device>, first: Waiting) returns (c: seq<Waiting>)
    requires QueuesValid(q) && Outcome(q, st, visited, first)
    requires first.destination in q && first in q[first.destination] && first.source != Some(first.destination)
    ensures Expanded(st, |st.path|) != []
    ensures Somes(c) == Expanded(st, |st.path|)[..|Expanded(st, |st.path|)| - 1]
    ensures c != [] ==> ClosesCycle(q, first, c)
    ensures c == [] ==> !(first.source.Some? && Leq(WaitGraph(q), first.source.value, first.destination))
  {
    hide Expanded, ClosesCycle, Leq, WaitGraph, QueuesValid, Linked, Separate;
    var n := |st.toVisit|;
    if n >= 2 && st.toVisit[n - 1].Some? {
      c := DestinationCycle(q, st, visited, first);
    } else {
      c := [];
      ExpandedNothing(st);
      ExpandedStep(st, 1);
      if n == 2 { ExpandedStep(st, 2); }
    }
  }

  lemma DestinationCycle(q: Queues, st: Stacks, visited: set<Device>, first: Waiting) returns (c: seq<Waiting>)
    requires QueuesValid(q) && Outcome(q, st, visited, first) && |st.toVisit| >= 2 && st.toVisit[|st.toVisit| - 1].Some?
    requires first.destination in q && first in q[first.destination] && first.source != Some(first.destination)
    ensures Expanded(st, |st.path|) != []
    ensures Somes(c) == Expanded(st, |st.path|)[..|Expanded(st, |st.path|)| - 1]
    ensures c != [] && ClosesCycle(q, first, c)
  {
    hide Expanded, ClosesCycle, Leq, WaitGraph;
    var n := |st.toVisit|;
    var ix := Ancestors(q, st, first, n - 1);
    forall k | 1 <= k < |ix| ensures ix[k] >= 1 { LineageDescends(q, st, n - 1, ix, 0, k); }
    LineageCloses(q, st, visited, first, ix);
    c := TransfersAt(st, ix[..|ix| - 1]);
  }

  /** Depth-first search from the new transfer's source for its destination, with an explicit
      stack: the transfers that close a cycle with it, or nothing when there is no cycle. */
  method DFS(q: Queues, first: Waiting) returns (r: seq<Waiting>)
    requires QueuesValid(q) && first.destination in q && first in q[first.destination]
    requires first.source != Some(first.destination)
    ensures r != [] ==> ClosesCycle(q, first, r)
    ensures r == [] <==> !exists p :: ClosesCycle(q, first, p)
    ensures r == [] <==> !(first.source.Some? && Leq(WaitGraph(q), first.source.value, first.destination))
  {
    hide Linked, Separate, Complete, ClosesCycle, Leq, Expanded;
    var visited: set<Device> := {};
    var st := Stacks([Some(first.destination), first.source], [true, true], [None, Some(first)]);
    StartsSearching(q, st, first);
    while |st.toVisit| > 0
      invariant Searching(q, st, visited, first)
      decreases q.Keys - visited, Kept(st.toKeep), |st.toVisit|
    {
      var n := |st.toVisit|;
      var current := st.toVisit[n - 1];
      if !st.toKeep[n - 1] {
        PopKeeps(q, st, visited, first);
        PopKept(st.toKeep);
        st := Popped(st);
        continue;
      }
      MarkLowersKept(st.toKeep);
      ghost var before := st;
      st := Marked(st);
      if current == Some(first.destination) {
        DestinationReached(q, before, visited, first);
        break;
      }
      if current.None? {
        NoSource(q, before, visited, first);
        break;
      }
      if current.value !in visited {
        Expandable(q, before, visited, first);
        ExpandKeeps(q, before, visited, first, current.value);
        st := PushWaiting(st, q[current.value]);
        visited := visited + {current.value};
      } else {
        MarkVisited(q, before, visited, first);
      }
    }
    ghost var c := OutcomeCycle(q, st, visited, first);
    var forwards := CollectPath(st);
    assert forall i :: 0 <= i < |forwards| ==> forwards[i] == Some(c[i]);
    r := seq(|forwards|, i requires 0 <= i < |forwards| => forwards[i].value);
    assert r == c;
    if r != [] { CycleIsPath(q, first, r); }
    forall p | ClosesCycle(q, first, p) ensures r != [] { CycleIsPath(q, first, p); }
  }
}
