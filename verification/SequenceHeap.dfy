/** The nodes of the trie and the records of the classes, at their addresses, and what they
    represent: a node for every stored string, and for every class a doubly linked list. */
module SequenceHeap {
  import opened SequenceClasses

  type Ref = nat
  const NULL: Ref := 0

  datatype Node = Node(children: seq<Ref>, next: Ref, prev: Ref, record: Class)

  datatype Record = Record(size: int, beginning: Ref, end: Ref)

  datatype Heap = Heap(nodes: map<Ref, Node>, records: map<Class, Record>)

  function DigitChar(d: nat): char
    requires d < 3
  {
    ("012")[d]
  }

  // ----- the trie

  ghost predicate HasString(at: map<string, Ref>, n: Ref) {
    exists s :: s in at && at[s] == n
  }

  /** Which string sits where; the empty string is the root's. */
  ghost predicate PlacesOk(h: Heap, lib: Lib, at: map<string, Ref>, root: Ref) {
    && at.Keys == lib.classOf.Keys + {""} && at[""] == root
    && (forall s :: s in at ==> at[s] in h.nodes && at[s] != NULL && |h.nodes[at[s]].children| == 3)
    && (forall s, t :: s in at && t in at && at[s] == at[t] ==> s == t)
    && (forall n :: n in h.nodes ==> HasString(at, n))
  }

  function Slot(at: map<string, Ref>, s: string, d: nat): Ref
    requires d < 3
  {
    if s + [DigitChar(d)] in at then at[s + [DigitChar(d)]] else NULL
  }

  ghost predicate SlotsOk(h: Heap, at: map<string, Ref>, s: string)
    requires s in at && at[s] in h.nodes && |h.nodes[at[s]].children| == 3
  {
    forall d: nat :: d < 3 ==> h.nodes[at[s]].children[d] == Slot(at, s, d)
  }

  /** The children of every string, but for the open ones, whose slots may be out of date. */
  ghost predicate TrieOk(h: Heap, lib: Lib, at: map<string, Ref>, root: Ref, open: set<string>) {
    && PlacesOk(h, lib, at, root)
    && (forall s :: s in at && s !in open ==> SlotsOk(h, at, s))
    && (forall s :: s in lib.classOf ==> h.nodes[at[s]].record == lib.classOf[s])
  }

  // ----- the lists

  function Refs(at: map<string, Ref>, l: seq<string>): (r: seq<Ref>)
    requires forall s :: s in l ==> s in at
    ensures |r| == |l| && forall i :: 0 <= i < |l| ==> r[i] == at[l[i]]
  {
    seq(|l|, i requires 0 <= i < |l| => at[l[i]])
  }

  ghost predicate LinkedAt(nodes: map<Ref, Node>, refs: seq<Ref>, i: nat)
    requires i < |refs|
  {
    && refs[i] in nodes && refs[i] != NULL
    && nodes[refs[i]].next == (if i < |refs| - 1 then refs[i + 1] else NULL)
    && nodes[refs[i]].prev == (if i > 0 then refs[i - 1] else NULL)
  }

  /** The nodes are linked in this order. */
  ghost predicate Linked(nodes: map<Ref, Node>, refs: seq<Ref>) {
    forall i: nat :: i < |refs| ==> LinkedAt(nodes, refs, i)
  }

  ghost predicate ListRep(h: Heap, c: Class, refs: seq<Ref>) {
    && refs != [] && c in h.records
    && h.records[c] == Record(|refs|, refs[0], refs[|refs| - 1])
    && Linked(h.nodes, refs)
  }

  ghost predicate Placed(at: map<string, Ref>, l: seq<string>) {
    forall s :: s in l ==> s in at
  }

  ghost predicate ListsOk(h: Heap, lib: Lib, at: map<string, Ref>) {
    && h.records.Keys == lib.lists.Keys
    && forall c :: c in lib.lists ==> Placed(at, lib.lists[c]) && ListRep(h, c, Refs(at, lib.lists[c]))
  }

  ghost predicate Rep(h: Heap, lib: Lib, at: map<string, Ref>, root: Ref, open: set<string>) {
    LibOk(lib) && TrieOk(h, lib, at, root, open) && ListsOk(h, lib, at)
  }

  // ----- a node is created

  function Created(h: Heap, parent: Ref, d: nat, n: Ref, c: Class): Heap
    requires parent in h.nodes && d < |h.nodes[parent].children|
  {
    var nodes := h.nodes[n := Node([NULL, NULL, NULL], NULL, NULL, c)];
    Heap(nodes[parent := h.nodes[parent].(children := h.nodes[parent].children[d := n])],
         h.records[c := Record(1, n, n)])
  }

  lemma CreatedKeys(h: Heap, parent: Ref, d: nat, n: Ref, c: Class)
    requires parent in h.nodes && d < |h.nodes[parent].children|
    ensures Created(h, parent, d, n, c).nodes.Keys == h.nodes.Keys + {n}
    ensures forall r :: r in h.nodes && r != n && |h.nodes[r].children| == 3 ==> |Created(h, parent, d, n, c).nodes[r].children| == 3
    ensures n !in h.nodes ==> |Created(h, parent, d, n, c).nodes[n].children| == 3
  {
  }

  lemma CreatedPlaces(h: Heap, lib: Lib, at: map<string, Ref>, root: Ref, s: string, d: nat, n: Ref, c: Class)
    requires PlacesOk(h, lib, at, root) && d < 3 && s in at && s + [DigitChar(d)] !in at
    requires n !in h.nodes && n != NULL
    ensures var t := s + [DigitChar(d)];
      PlacesOk(Created(h, at[s], d, n, c), AddOne(lib, t, c), at[t := n], root)
  {
    hide Created, HasString;
    CreatedKeys(h, at[s], d, n, c);
    var t := s + [DigitChar(d)];
    var g, at' := Created(h, at[s], d, n, c), at[t := n];
    forall m | m in g.nodes ensures HasString(at', m) { StringAdded(at, t, n, m); }
    assert "" in at && "" != t;
  }

  lemma StringAdded(at: map<string, Ref>, t: string, n: Ref, m: Ref)
    requires t !in at && (m == n || HasString(at, m))
    ensures HasString(at[t := n], m)
  {
    if m == n {
      assert at[t := n][t] == n;
    } else {
      var x :| x in at && at[x] == m;
      assert at[t := n][x] == m;
    }
  }

  lemma OnlyChild(s: string, d: nat, x: string, e: nat)
    requires d < 3 && e < 3 && x + [DigitChar(e)] == s + [DigitChar(d)]
    ensures x == s && e == d
  {
    var t := s + [DigitChar(d)];
    assert x == (x + [DigitChar(e)])[..|x|] && s == t[..|s|];
    assert (x + [DigitChar(e)])[|x|] == DigitChar(e) && t[|s|] == DigitChar(d);
  }

  lemma CreatedSlots(h: Heap, lib: Lib, at: map<string, Ref>, root: Ref, s: string, d: nat, n: Ref, c: Class, x: string)
    requires LibOk(lib) && TrieOk(h, lib, at, root, {}) && d < 3 && s in at && s + [DigitChar(d)] !in at
    requires n !in h.nodes && n != NULL && (x in at || x == s + [DigitChar(d)])
    ensures var g, at' := Created(h, at[s], d, n, c), at[s + [DigitChar(d)] := n];
      at'[x] in g.nodes && |g.nodes[at'[x]].children| == 3 && SlotsOk(g, at', x)
  {
    hide LibOk;
    var t := s + [DigitChar(d)];
    var g, at' := Created(h, at[s], d, n, c), at[t := n];
    if x in at { assert SlotsOk(h, at, x); }
    forall e: nat | e < 3 ensures g.nodes[at'[x]].children[e] == Slot(at', x, e) {
      if x == t {
        NotStored(lib, at, t, e);
        assert |t + [DigitChar(e)]| > |t|;
      } else {
        if x + [DigitChar(e)] == t { OnlyChild(s, d, x, e); }
        assert h.nodes[at[x]].children[e] == Slot(at, x, e);
        assert at[x] == at[s] ==> x == s;
      }
    }
  }

  lemma CreatedTrie(h: Heap, lib: Lib, at: map<string, Ref>, root: Ref, s: string, d: nat, n: Ref, c: Class)
    requires LibOk(lib) && TrieOk(h, lib, at, root, {}) && d < 3 && s in at && s + [DigitChar(d)] !in at
    requires n !in h.nodes && n != NULL
    ensures var t := s + [DigitChar(d)];
      TrieOk(Created(h, at[s], d, n, c), AddOne(lib, t, c), at[t := n], root, {})
  {
    hide LibOk, SlotsOk, Created, PlacesOk;
    var t := s + [DigitChar(d)];
    CreatedLabels(h, lib, at, root, s, d, n, c);
    CreatedPlaces(h, lib, at, root, s, d, n, c);
    var g, at' := Created(h, at[s], d, n, c), at[t := n];
    forall x | x in at' ensures SlotsOk(g, at', x) {
      CreatedSlots(h, lib, at, root, s, d, n, c, x);
    }
  }

  lemma CreatedLabels(h: Heap, lib: Lib, at: map<string, Ref>, root: Ref, s: string, d: nat, n: Ref, c: Class)
    requires TrieOk(h, lib, at, root, {}) && d < 3 && s in at && s + [DigitChar(d)] !in at
    requires n !in h.nodes && n != NULL
    ensures at[s] in h.nodes && |h.nodes[at[s]].children| == 3
    ensures var t := s + [DigitChar(d)]; var g := Created(h, at[s], d, n, c); var at' := at[t := n];
      && at'.Keys == AddOne(lib, t, c).classOf.Keys + {""}
      && (forall x :: x in at' ==> at'[x] in g.nodes && |g.nodes[at'[x]].children| == 3)
      && (forall x :: x in AddOne(lib, t, c).classOf ==> g.nodes[at'[x]].record == AddOne(lib, t, c).classOf[x])
  {
    hide SlotsOk;
  }

  lemma ParentIn(lib: Lib, t: string)
    requires LibOk(lib)
    ensures t in lib.classOf && |t| > 1 ==> t[..|t| - 1] in lib.classOf
  {
    if t in lib.classOf { assert StoredOk(lib, t); }
  }

  lemma NotStored(lib: Lib, at: map<string, Ref>, t: string, e: nat)
    requires LibOk(lib) && at.Keys == lib.classOf.Keys + {""} && t !in at && e < 3 && t != []
    ensures t + [DigitChar(e)] !in at
  {
    ParentIn(lib, t + [DigitChar(e)]);
    assert (t + [DigitChar(e)])[..|t|] == t;
  }

  /** Lists whose nodes and records stay as they were stay lists. */
  lemma ListKept(h: Heap, g: Heap, c: Class, refs: seq<Ref>)
    requires ListRep(h, c, refs) && c in g.records && g.records[c] == h.records[c]
    requires forall r :: r in refs && r in h.nodes ==>
      r in g.nodes && g.nodes[r].next == h.nodes[r].next && g.nodes[r].prev == h.nodes[r].prev
    ensures ListRep(g, c, refs)
  {
    forall i: nat | i < |refs| ensures LinkedAt(g.nodes, refs, i) { assert LinkedAt(h.nodes, refs, i); }
  }

  lemma CreatedList(h: Heap, lib: Lib, at: map<string, Ref>, p: Ref, d: nat, t: string, n: Ref, c: Class, x: Class)
    requires ListsOk(h, lib, at) && p in h.nodes && d < |h.nodes[p].children| && t !in at
    requires n !in h.nodes && c !in h.records && x in lib.lists
    ensures var g, at' := Created(h, p, d, n, c), at[t := n];
      Placed(at', lib.lists[x]) && ListRep(g, x, Refs(at', lib.lists[x]))
  {
    var g, at' := Created(h, p, d, n, c), at[t := n];
    var l := lib.lists[x];
    assert Placed(at, l) && ListRep(h, x, Refs(at, l));
    var refs := Refs(at, l);
    assert Refs(at', l) == refs by {
      forall i | 0 <= i < |l| ensures l[i] != t { assert l[i] in l; }
    }
    ListKept(h, g, x, refs);
  }

  lemma CreatedLists(h: Heap, lib: Lib, at: map<string, Ref>, root: Ref, s: string, d: nat, n: Ref, c: Class)
    requires Rep(h, lib, at, root, {}) && d < 3 && s in at && s + [DigitChar(d)] !in at
    requires n !in h.nodes && n != NULL && c !in h.records
    ensures var t := s + [DigitChar(d)];
      ListsOk(Created(h, at[s], d, n, c), AddOne(lib, t, c), at[t := n])
  {
    hide LibOk, ListRep, TrieOk;
    InTrie(h, lib, at, root, {});
    var t := s + [DigitChar(d)];
    var g, at', lib' := Created(h, at[s], d, n, c), at[t := n], AddOne(lib, t, c);
    forall x | x in lib'.lists ensures Placed(at', lib'.lists[x]) && ListRep(g, x, Refs(at', lib'.lists[x])) {
      if x == c { NewList(g, at', t, c); } else { CreatedList(h, lib, at, at[s], d, t, n, c, x); }
    }
  }

  lemma NewList(g: Heap, at: map<string, Ref>, t: string, c: Class)
    requires t in at && at[t] != NULL && at[t] in g.nodes && c in g.records && g.records[c] == Record(1, at[t], at[t])
    requires g.nodes[at[t]].next == NULL && g.nodes[at[t]].prev == NULL
    ensures Placed(at, [t]) && ListRep(g, c, Refs(at, [t]))
  {
  }

  lemma CreatedRep(h: Heap, lib: Lib, at: map<string, Ref>, root: Ref, s: string, d: nat, n: Ref, c: Class)
    requires Rep(h, lib, at, root, {}) && d < 3 && s in at && s + [DigitChar(d)] !in at
    requires n !in h.nodes && n != NULL && c !in h.records && StringValid(s + [DigitChar(d)])
    ensures var t := s + [DigitChar(d)];
      Rep(Created(h, at[s], d, n, c), AddOne(lib, t, c), at[t := n], root, {})
  {
    hide LibOk, TrieOk, ListsOk;
    var t := s + [DigitChar(d)];
    InTrie(h, lib, at, root, {});
    assert t[..|t| - 1] == s;
    AddOneOk(lib, t, c);
    CreatedTrie(h, lib, at, root, s, d, n, c);
    CreatedLists(h, lib, at, root, s, d, n, c);
  }

  lemma InTrie(h: Heap, lib: Lib, at: map<string, Ref>, root: Ref, open: set<string>)
    requires Rep(h, lib, at, root, open)
    ensures at.Keys == lib.classOf.Keys + {""} && h.records.Keys == lib.lists.Keys
    ensures forall s :: s in at ==> at[s] in h.nodes && at[s] != NULL && |h.nodes[at[s]].children| == 3
  {
  }

  // ----- a node is taken out

  predicate Detachable(h: Heap, p: Ref) {
    && p in h.nodes && h.nodes[p].record in h.records
    && (h.nodes[p].next != NULL ==> h.nodes[p].next in h.nodes)
    && (h.nodes[p].prev != NULL ==> h.nodes[p].prev in h.nodes)
  }

  /** The neighbours of a node are joined, and the ends of the list are put right. */
  function Adjusted(h: Heap, p: Ref): Heap
    requires Detachable(h, p)
  {
    var n, c := h.nodes[p], h.nodes[p].record;
    if n.next != NULL && n.prev != NULL then
      var nodes := h.nodes[n.prev := h.nodes[n.prev].(next := n.next)];
      Heap(nodes[n.next := nodes[n.next].(prev := n.prev)], h.records)
    else if n.prev != NULL then
      Heap(h.nodes[n.prev := h.nodes[n.prev].(next := NULL)], h.records[c := h.records[c].(end := n.prev)])
    else if n.next != NULL then
      Heap(h.nodes[n.next := h.nodes[n.next].(prev := NULL)], h.records[c := h.records[c].(beginning := n.next)])
    else h
  }

  /** The node leaves its list, which gets shorter. */
  function Unlinked(h: Heap, p: Ref): Heap
    requires Detachable(h, p)
  {
    var c := h.nodes[p].record;
    Adjusted(Heap(h.nodes, h.records[c := h.records[c].(size := h.records[c].size - 1)]), p)
  }

  /** Then its record goes if it is empty, and the node itself. */
  function Freed(h: Heap, p: Ref): Heap
    requires Detachable(h, p)
  {
    var c := h.nodes[p].record;
    var u := Unlinked(h, p);
    Heap(u.nodes - {p}, if u.records[c].size == 0 then u.records - {c} else u.records)
  }

  ghost predicate AllDistinct(refs: seq<Ref>) {
    forall i, j :: 0 <= i < j < |refs| ==> refs[i] != refs[j]
  }

  lemma Neighbours(h: Heap, c: Class, refs: seq<Ref>, k: nat)
    requires ListRep(h, c, refs) && k < |refs|
    ensures refs[k] in h.nodes && c in h.records
    ensures h.nodes[refs[k]].next != NULL ==> k < |refs| - 1 && h.nodes[refs[k]].next == refs[k + 1] && refs[k + 1] in h.nodes
    ensures h.nodes[refs[k]].prev != NULL ==> k > 0 && h.nodes[refs[k]].prev == refs[k - 1] && refs[k - 1] in h.nodes
    ensures LinkedAt(h.nodes, refs, k)
    ensures h.nodes[refs[k]].next == NULL <==> k == |refs| - 1
    ensures h.nodes[refs[k]].prev == NULL <==> k == 0
  {
    assert LinkedAt(h.nodes, refs, k);
    if k < |refs| - 1 { assert LinkedAt(h.nodes, refs, k + 1); }
    if k > 0 { assert LinkedAt(h.nodes, refs, k - 1); }
  }

  /** What the other nodes of the list look like after the k-th one has been taken out. */
  lemma UnlinkedFields(h: Heap, c: Class, refs: seq<Ref>, k: nat, j: nat)
    requires ListRep(h, c, refs) && AllDistinct(refs) && k < |refs| && j < |refs| && j != k
    requires refs[k] in h.nodes && h.nodes[refs[k]].record == c
    ensures Detachable(h, refs[k])
    ensures var g := Freed(h, refs[k]);
      && refs[j] in g.nodes
      && g.nodes[refs[j]].next ==
           (if j + 1 == k then if k < |refs| - 1 then refs[k + 1] else NULL else h.nodes[refs[j]].next)
      && g.nodes[refs[j]].prev ==
           (if j == k + 1 then if k > 0 then refs[k - 1] else NULL else h.nodes[refs[j]].prev)
  {
    hide ListRep;
    Neighbours(h, c, refs, k);
    Neighbours(h, c, refs, j);
  }

  lemma UnlinkedRecord(h: Heap, c: Class, refs: seq<Ref>, k: nat)
    requires ListRep(h, c, refs) && AllDistinct(refs) && k < |refs|
    requires refs[k] in h.nodes && h.nodes[refs[k]].record == c
    ensures Detachable(h, refs[k])
    ensures var g := Freed(h, refs[k]); var rest := refs[..k] + refs[k + 1..];
      if rest == [] then g.records == h.records - {c}
      else g.records == h.records[c := Record(|rest|, rest[0], rest[|rest| - 1])]
  {
    Neighbours(h, c, refs, k);
    if |refs| > 1 { assert refs[0] != refs[|refs| - 1]; }
  }

  /** A list without its k-th node. */
  lemma UnlinkedList(h: Heap, c: Class, refs: seq<Ref>, k: nat)
    requires ListRep(h, c, refs) && AllDistinct(refs) && k < |refs|
    requires refs[k] in h.nodes && h.nodes[refs[k]].record == c
    ensures var p := refs[k]; var rest := refs[..k] + refs[k + 1..];
      && Detachable(h, p)
      && (rest != [] ==> ListRep(Freed(h, p), c, rest))
      && (rest == [] ==> c !in Freed(h, p).records)
  {
    hide Freed;
    UnlinkedRecord(h, c, refs, k);
    var p, rest := refs[k], refs[..k] + refs[k + 1..];
    Neighbours(h, c, refs, k);
    var g := Freed(h, p);
    forall i: nat | i < |rest| ensures LinkedAt(g.nodes, rest, i) {
      var j := if i < k then i else i + 1;
      Neighbours(h, c, refs, j);
      UnlinkedFields(h, c, refs, k, j);
      assert rest[i] == refs[j];
    }
  }

  lemma FreedFields(h: Heap, p: Ref, r: Ref)
    requires Detachable(h, p) && r in h.nodes && r != p
    ensures var g := Freed(h, p);
      && r in g.nodes && g.nodes[r].children == h.nodes[r].children && g.nodes[r].record == h.nodes[r].record
      && (r != h.nodes[p].next && r != h.nodes[p].prev ==> g.nodes[r] == h.nodes[r])
  {
  }

  lemma FreedKeys(h: Heap, p: Ref)
    requires Detachable(h, p)
    ensures Freed(h, p).nodes.Keys == h.nodes.Keys - {p}
    ensures forall x :: x in h.records && x != h.nodes[p].record ==>
      x in Freed(h, p).records && Freed(h, p).records[x] == h.records[x]
    ensures Freed(h, p).records.Keys == h.records.Keys || Freed(h, p).records.Keys == h.records.Keys - {h.nodes[p].record}
  {
  }

  /** The place of a stored string in the list of its class. */
  lemma PlaceInList(h: Heap, lib: Lib, at: map<string, Ref>, root: Ref, open: set<string>, s: string) returns (k: nat)
    requires Rep(h, lib, at, root, open) && s in lib.classOf
    ensures s in at && at[s] in h.nodes && h.nodes[at[s]].record == lib.classOf[s] && lib.classOf[s] in lib.lists
    ensures var l := lib.lists[lib.classOf[s]];
      && k < |l| && l[k] == s && Placed(at, l) && Distinct(l)
      && ListRep(h, lib.classOf[s], Refs(at, l)) && AllDistinct(Refs(at, l))
  {
    hide ListRep, SlotsOk;
    assert StoredOk(lib, s);
    var c := lib.classOf[s];
    var l := lib.lists[c];
    assert ListOk(lib, c);
    k :| 0 <= k < |l| && l[k] == s;
    assert Placed(at, l);
    forall i, j | 0 <= i < j < |l| ensures Refs(at, l)[i] != Refs(at, l)[j] {
      assert l[i] in l && l[j] in l;
    }
  }

  lemma CanDetach(h: Heap, lib: Lib, at: map<string, Ref>, root: Ref, open: set<string>, s: string)
    requires Rep(h, lib, at, root, open) && s in lib.classOf
    ensures s in at && Detachable(h, at[s])
  {
    hide Rep, ListRep;
    var k := PlaceInList(h, lib, at, root, open, s);
    Neighbours(h, lib.classOf[s], Refs(at, lib.lists[lib.classOf[s]]), k);
  }

  lemma DroppedStep(l: seq<string>, gone: set<string>)
    requires l != []
    ensures Dropped(l, gone) ==
      Dropped(l[..|l| - 1], gone) + if l[|l| - 1] in gone then [] else [l[|l| - 1]]
  {
  }

  lemma {:induction false} DroppedOne(l: seq<string>, k: nat)
    requires k < |l| && Distinct(l)
    ensures Dropped(l, {l[k]}) == l[..k] + l[k + 1..]
    decreases |l|
  {
    hide Dropped;
    var n := |l| - 1;
    var front := l[..n];
    DroppedStep(l, {l[k]});
    if k == n {
      forall x | x in front ensures x !in {l[k]} {
        var i :| 0 <= i < n && front[i] == x;
      }
      DroppedNothing(front, {l[k]});
      assert l[k + 1..] == [];
    } else {
      DroppedOne(front, k);
      assert front[k] == l[k] && l[n] != l[k];
      assert front[k + 1..] + [l[n]] == l[k + 1..];
    }
  }

  /** A leaf is gone from its list; all other lists are as they were. */
  lemma RefsWithout(at: map<string, Ref>, l: seq<string>, k: nat)
    requires k < |l| && Placed(at, l) && Distinct(l)
    ensures var rest := l[..k] + l[k + 1..];
      Placed(at - {l[k]}, rest) && Refs(at - {l[k]}, rest) == Refs(at, l)[..k] + Refs(at, l)[k + 1..]
  {
    var rest, at' := l[..k] + l[k + 1..], at - {l[k]};
    forall i | 0 <= i < |rest| ensures rest[i] in at' && at'[rest[i]] == (Refs(at, l)[..k] + Refs(at, l)[k + 1..])[i] {
      var j := if i < k then i else i + 1;
      assert rest[i] == l[j] && l[j] in l;
    }
  }

  lemma FreedOwnList(h: Heap, lib: Lib, at: map<string, Ref>, root: Ref, open: set<string>, s: string)
    requires Rep(h, lib, at, root, open) && s in lib.classOf && s != ""
    ensures s in at && Detachable(h, at[s])
    ensures var g, c, lib', at' := Freed(h, at[s]), lib.classOf[s], Without(lib, {s}), at - {s};
      && (c in lib'.lists <==> c in g.records)
      && (c in lib'.lists ==> Placed(at', lib'.lists[c]) && ListRep(g, c, Refs(at', lib'.lists[c])))
  {
    hide Rep, ListRep, Freed;
    CanDetach(h, lib, at, root, open, s);
    var k := PlaceInList(h, lib, at, root, open, s);
    var c := lib.classOf[s];
    var l := lib.lists[c];
    var refs := Refs(at, l);
    DroppedOne(l, k);
    UnlinkedList(h, c, refs, k);
    RefsWithout(at, l, k);
    OwnRecord(h, at[s], c, refs[..k] + refs[k + 1..]);
  }

  lemma OwnRecord(h: Heap, p: Ref, c: Class, rest: seq<Ref>)
    requires Detachable(h, p) && (rest != [] ==> ListRep(Freed(h, p), c, rest)) && (rest == [] ==> c !in Freed(h, p).records)
    ensures rest != [] <==> c in Freed(h, p).records
  {
    hide Freed;
  }

  /** Different lists have no node in common. */
  lemma Apart(h: Heap, lib: Lib, at: map<string, Ref>, root: Ref, open: set<string>, x: Class, c: Class)
    requires Rep(h, lib, at, root, open) && x in lib.lists && c in lib.lists && x != c
    ensures Placed(at, lib.lists[x]) && Placed(at, lib.lists[c])
    ensures ListRep(h, x, Refs(at, lib.lists[x])) && ListRep(h, c, Refs(at, lib.lists[c]))
    ensures forall i, j :: 0 <= i < |lib.lists[x]| && 0 <= j < |lib.lists[c]| ==> at[lib.lists[x][i]] != at[lib.lists[c][j]]
  {
    hide ListRep, SlotsOk, Distinct;
    assert ListOk(lib, x) && ListOk(lib, c);
    forall i, j | 0 <= i < |lib.lists[x]| && 0 <= j < |lib.lists[c]| ensures at[lib.lists[x][i]] != at[lib.lists[c][j]] {
      assert lib.lists[x][i] in lib.lists[x] && lib.lists[c][j] in lib.lists[c];
    }
  }

  lemma FreedOtherList(h: Heap, lib: Lib, at: map<string, Ref>, root: Ref, open: set<string>, s: string, x: Class)
    requires Rep(h, lib, at, root, open) && s in lib.classOf && x in lib.lists && x != lib.classOf[s]
    ensures s in at && Detachable(h, at[s])
    ensures var g, lib', at' := Freed(h, at[s]), Without(lib, {s}), at - {s};
      && x in lib'.lists && Placed(at', lib'.lists[x]) && ListRep(g, x, Refs(at', lib'.lists[x]))
  {
    hide ListRep, Freed, Rep, Detachable;
    CanDetach(h, lib, at, root, open, s);
    var k := PlaceInList(h, lib, at, root, open, s);
    var c := lib.classOf[s];
    Apart(h, lib, at, root, open, x, c);
    var l, own := lib.lists[x], lib.lists[c];
    NotInOther(h, lib, at, root, open, s, x);
    DroppedNothing(l, {s});
    var at' := at - {s};
    assert Placed(at', l);
    assert Refs(at', l) == Refs(at, l);
    Neighbours(h, c, Refs(at, own), k);
    FreedKeys(h, at[s]);
    RecordThere(h, x, Refs(at, l));
    forall r | r in Refs(at, l) && r in h.nodes
      ensures r in Freed(h, at[s]).nodes && Freed(h, at[s]).nodes[r] == h.nodes[r]
    {
      var i :| 0 <= i < |l| && at[l[i]] == r;
      assert at[own[k]] != r;
      FreedFields(h, at[s], r);
    }
    ListKept(h, Freed(h, at[s]), x, Refs(at, l));
  }

  lemma RecordThere(h: Heap, c: Class, refs: seq<Ref>)
    requires ListRep(h, c, refs)
    ensures c in h.records && refs != [] && forall r :: r in refs ==> r != NULL
  {
    forall r | r in refs ensures r != NULL {
      var i: nat :| i < |refs| && refs[i] == r;
      assert LinkedAt(h.nodes, refs, i);
    }
  }

  lemma NotInOther(h: Heap, lib: Lib, at: map<string, Ref>, root: Ref, open: set<string>, s: string, x: Class)
    requires Rep(h, lib, at, root, open) && s in lib.classOf && x in lib.lists && x != lib.classOf[s]
    ensures lib.lists[x] != [] && forall t :: t in lib.lists[x] ==> t != s
  {
    hide TrieOk, ListsOk;
    assert ListOk(lib, x);
  }

  lemma FreedPlaces(h: Heap, lib: Lib, at: map<string, Ref>, root: Ref, s: string)
    requires PlacesOk(h, lib, at, root) && s in lib.classOf && s != "" && Detachable(h, at[s])
    ensures PlacesOk(Freed(h, at[s]), Without(lib, {s}), at - {s}, root)
    ensures forall t :: t in at && t != s ==>
      && at[t] in h.nodes && at[t] in Freed(h, at[s]).nodes
      && Freed(h, at[s]).nodes[at[t]].children == h.nodes[at[t]].children
      && Freed(h, at[s]).nodes[at[t]].record == h.nodes[at[t]].record
  {
    hide Freed, Detachable, Without;
    FreedKeys(h, at[s]);
    var g := Freed(h, at[s]);
    forall t | t in at && t != s ensures
      && at[t] in g.nodes && g.nodes[at[t]].children == h.nodes[at[t]].children
      && g.nodes[at[t]].record == h.nodes[at[t]].record
    {
      FreedFields(h, at[s], at[t]);
    }
    PlacesLeft(h, g, lib, at, root, s);
  }

  lemma NodesPlaced(h: Heap, g: Heap, lib: Lib, at: map<string, Ref>, root: Ref, s: string)
    requires PlacesOk(h, lib, at, root) && s in at && g.nodes.Keys == h.nodes.Keys - {at[s]}
    ensures forall n :: n in g.nodes ==> HasString(at - {s}, n)
  {
    var at' := at - {s};
    forall n | n in g.nodes ensures HasString(at', n) {
      var t :| t in at && at[t] == n;
      assert t in at' && at'[t] == n;
    }
  }

  lemma StringsLeft(lib: Lib, s: string)
    ensures Without(lib, {s}).classOf.Keys == lib.classOf.Keys - {s}
  {
    hide Dropped;
  }

  /** One place and its node are gone. */
  lemma PlacesLeft(h: Heap, g: Heap, lib: Lib, at: map<string, Ref>, root: Ref, s: string)
    requires PlacesOk(h, lib, at, root) && s in lib.classOf && s != "" && g.nodes.Keys == h.nodes.Keys - {at[s]}
    requires forall t :: t in at && t != s ==>
      at[t] in h.nodes && at[t] in g.nodes && g.nodes[at[t]].children == h.nodes[at[t]].children
    ensures PlacesOk(g, Without(lib, {s}), at - {s}, root)
  {
    hide Without, HasString;
    NodesPlaced(h, g, lib, at, root, s);
    StringsLeft(lib, s);
    assert (at - {s}).Keys == Without(lib, {s}).classOf.Keys + {""};
  }

  lemma SlotStays(at: map<string, Ref>, s: string, t: string, d: nat)
    requires d < 3 && s != "" && t != s[..|s| - 1]
    ensures Slot(at - {s}, t, d) == Slot(at, t, d)
  {
    assert (t + [DigitChar(d)])[..|t|] == t;
  }

  lemma FreedTrie(h: Heap, lib: Lib, at: map<string, Ref>, root: Ref, open: set<string>, s: string)
    requires Rep(h, lib, at, root, open) && s in lib.classOf && s != "" && s[..|s| - 1] in open
    ensures s in at && Detachable(h, at[s])
    ensures TrieOk(Freed(h, at[s]), Without(lib, {s}), at - {s}, root, open - {s})
  {
    hide ListsOk, Freed, LibOk, PlacesOk, Slot, Detachable;
    CanDetach(h, lib, at, root, open, s);
    InTrie(h, lib, at, root, open);
    FreedPlaces(h, lib, at, root, s);
    var g, at' := Freed(h, at[s]), at - {s};
    forall t | t in at' && t !in open - {s} ensures SlotsOk(g, at', t) {
      assert SlotsOk(h, at, t);
      forall d: nat | d < 3 ensures Slot(at', t, d) == Slot(at, t, d) { SlotStays(at, s, t, d); }
    }
  }

  /** A leaf whose parent's slot is not relied on is taken out. */
  lemma FreedRep(h: Heap, lib: Lib, at: map<string, Ref>, root: Ref, open: set<string>, s: string)
    requires Rep(h, lib, at, root, open) && s in lib.classOf && s != "" && s[..|s| - 1] in open
    requires forall t :: t in lib.classOf && s <= t ==> t == s
    ensures s in at && Detachable(h, at[s])
    ensures Rep(Freed(h, at[s]), Without(lib, {s}), at - {s}, root, open - {s})
  {
    hide LibOk, TrieOk, ListRep, Freed, Without;
    CanDetach(h, lib, at, root, open, s);
    FreedTrie(h, lib, at, root, open, s);
    assert LibOk(lib);
    WithoutOk(lib, {s});
    FreedKeys(h, at[s]);
    InTrie(h, lib, at, root, open);
    FreedOwnList(h, lib, at, root, open, s);
    var g, lib', at' := Freed(h, at[s]), Without(lib, {s}), at - {s};
    FewerLists(lib, {s});
    var k := PlaceInList(h, lib, at, root, open, s);
    forall x | x in lib.lists && x != lib.classOf[s]
      ensures x in lib'.lists && Placed(at', lib'.lists[x]) && ListRep(g, x, Refs(at', lib'.lists[x]))
    {
      FreedOtherList(h, lib, at, root, open, s, x);
    }
    assert g.records.Keys == lib'.lists.Keys;
  }

  lemma FewerLists(lib: Lib, gone: set<string>)
    ensures forall x :: x in Without(lib, gone).lists ==> x in lib.lists
  {
  }

  // ----- two lists are joined

  /** The first nodes of the list are given the record. */
  function Relabelled(nodes: map<Ref, Node>, refs: seq<Ref>, c: Class): map<Ref, Node> {
    map n | n in nodes :: if n in refs then nodes[n].(record := c) else nodes[n]
  }

  /** The shorter list is relabelled and put in front of the longer one. */
  function Joined(h: Heap, large: Class, largeRefs: seq<Ref>, small: Class, smallRefs: seq<Ref>): Heap
    requires large in h.records && small in h.records && largeRefs != [] && smallRefs != []
    requires largeRefs[0] in h.nodes && smallRefs[|smallRefs| - 1] in h.nodes
  {
    var nodes := Relabelled(h.nodes, smallRefs, large);
    var first, last := largeRefs[0], smallRefs[|smallRefs| - 1];
    var linked := nodes[last := nodes[last].(next := first)];
    var l, s := h.records[large], h.records[small];
    Heap(linked[first := linked[first].(prev := last)],
         h.records[large := Record(l.size + s.size, s.beginning, l.end)] - {small})
  }

  ghost predicate Apart2(a: seq<Ref>, b: seq<Ref>) {
    forall i, j :: 0 <= i < |a| && 0 <= j < |b| ==> a[i] != b[j]
  }

  lemma JoinedFields(h: Heap, large: Class, a: seq<Ref>, small: Class, b: seq<Ref>, r: Ref)
    requires ListRep(h, large, a) && ListRep(h, small, b) && large != small && Apart2(a, b) && r in h.nodes
    ensures a[0] in h.nodes && b[|b| - 1] in h.nodes
    ensures var g := Joined(h, large, a, small, b);
      && r in g.nodes && g.nodes[r].children == h.nodes[r].children
      && g.nodes[r].record == (if r in b then large else h.nodes[r].record)
      && g.nodes[r].next == (if r == b[|b| - 1] then a[0] else h.nodes[r].next)
      && g.nodes[r].prev == (if r == a[0] then b[|b| - 1] else h.nodes[r].prev)
  {
    assert LinkedAt(h.nodes, a, 0) && LinkedAt(h.nodes, b, |b| - 1);
    assert a[0] != b[|b| - 1];
  }

  lemma JoinedList(h: Heap, large: Class, a: seq<Ref>, small: Class, b: seq<Ref>)
    requires ListRep(h, large, a) && ListRep(h, small, b) && large != small && Apart2(a, b)
    requires AllDistinct(a) && AllDistinct(b)
    ensures a[0] in h.nodes && b[|b| - 1] in h.nodes
    ensures ListRep(Joined(h, large, a, small, b), large, b + a)
  {
    hide Relabelled;
    assert LinkedAt(h.nodes, a, 0) && LinkedAt(h.nodes, b, |b| - 1);
    var g, all := Joined(h, large, a, small, b), b + a;
    forall i: nat | i < |all| ensures LinkedAt(g.nodes, all, i) {
      var r := all[i];
      if i < |b| {
        assert LinkedAt(h.nodes, b, i) && r == b[i] != a[0];
        JoinedFields(h, large, a, small, b, r);
      } else {
        assert LinkedAt(h.nodes, a, i - |b|) && r == a[i - |b|] != b[|b| - 1];
        JoinedFields(h, large, a, small, b, r);
      }
    }
  }

  lemma JoinedOther(h: Heap, large: Class, a: seq<Ref>, small: Class, b: seq<Ref>, x: Class, refs: seq<Ref>)
    requires ListRep(h, large, a) && ListRep(h, small, b) && large != small && Apart2(a, b)
    requires ListRep(h, x, refs) && x != large && x != small && Apart2(refs, a) && Apart2(refs, b)
    ensures a[0] in h.nodes && b[|b| - 1] in h.nodes
    ensures ListRep(Joined(h, large, a, small, b), x, refs)
  {
    hide Relabelled;
    assert LinkedAt(h.nodes, a, 0) && LinkedAt(h.nodes, b, |b| - 1);
    var g := Joined(h, large, a, small, b);
    forall r | r in refs && r in h.nodes
      ensures r in g.nodes && g.nodes[r].next == h.nodes[r].next && g.nodes[r].prev == h.nodes[r].prev
    {
      var i :| 0 <= i < |refs| && refs[i] == r;
      JoinedFields(h, large, a, small, b, r);
    }
    ListKept(h, g, x, refs);
  }

  /** What both lists need to be joined. */
  lemma Joinable(h: Heap, lib: Lib, at: map<string, Ref>, root: Ref, large: Class, small: Class)
    requires Rep(h, lib, at, root, {}) && large in lib.lists && small in lib.lists && large != small
    ensures Placed(at, lib.lists[large]) && Placed(at, lib.lists[small])
    ensures var a, b := Refs(at, lib.lists[large]), Refs(at, lib.lists[small]);
      && ListRep(h, large, a) && ListRep(h, small, b) && Apart2(a, b) && AllDistinct(a) && AllDistinct(b)
      && a[0] in h.nodes && b[|b| - 1] in h.nodes && large in h.records && small in h.records
  {
    hide Rep, ListRep;
    Apart(h, lib, at, root, {}, large, small);
    FirstOf(h, lib, at, root, large);
    FirstOf(h, lib, at, root, small);
  }

  lemma FirstOf(h: Heap, lib: Lib, at: map<string, Ref>, root: Ref, c: Class)
    requires Rep(h, lib, at, root, {}) && c in lib.lists
    ensures lib.lists[c] != [] && Placed(at, lib.lists[c]) && c in h.records
    ensures var refs := Refs(at, lib.lists[c]);
      AllDistinct(refs) && refs[0] in h.nodes && refs[|refs| - 1] in h.nodes
  {
    hide SlotsOk;
    var l := lib.lists[c];
    assert ListOk(lib, c) && Placed(at, l);
    var refs := Refs(at, l);
    assert LinkedAt(h.nodes, refs, 0) && LinkedAt(h.nodes, refs, |refs| - 1);
    forall i, j | 0 <= i < j < |l| ensures refs[i] != refs[j] { assert l[i] in l && l[j] in l; }
  }

  lemma JoinedTrie(h: Heap, lib: Lib, at: map<string, Ref>, root: Ref, large: Class, small: Class)
    requires Rep(h, lib, at, root, {}) && large in lib.lists && small in lib.lists && large != small
    ensures Placed(at, lib.lists[large]) && Placed(at, lib.lists[small])
    ensures var a, b := Refs(at, lib.lists[large]), Refs(at, lib.lists[small]);
      && large in h.records && small in h.records && a != [] && b != []
      && a[0] in h.nodes && b[|b| - 1] in h.nodes
      && TrieOk(Joined(h, large, a, small, b), Merged(lib, large, small), at, root, {})
  {
    hide ListRep, LibOk, Joined, ListsOk, TrieOk;
    Joinable(h, lib, at, root, large, small);
    LargeListed(lib, large, small);
    var a, b := Refs(at, lib.lists[large]), Refs(at, lib.lists[small]);
    var g := Joined(h, large, a, small, b);
    JoinedKeys(h, large, a, small, b);
    TrieKeys(h, lib, at, root, {});
    forall s | s in at ensures g.nodes[at[s]].children == h.nodes[at[s]].children {
      JoinedFields(h, large, a, small, b, at[s]);
    }
    forall s | s in lib.classOf ensures g.nodes[at[s]].record == Merged(lib, large, small).classOf[s] {
      JoinedFields(h, large, a, small, b, at[s]);
      InSmall(h, lib, at, root, small, s);
      TrieRecord(h, lib, at, root, {}, s);
    }
    TrieSame(h, g, lib, Merged(lib, large, small), at, root);
  }

  lemma TrieKeys(h: Heap, lib: Lib, at: map<string, Ref>, root: Ref, open: set<string>)
    requires TrieOk(h, lib, at, root, open)
    ensures at.Keys == lib.classOf.Keys + {""} && forall s :: s in at ==> at[s] in h.nodes
  {
  }

  lemma TrieRecord(h: Heap, lib: Lib, at: map<string, Ref>, root: Ref, open: set<string>, s: string)
    requires TrieOk(h, lib, at, root, open) && s in lib.classOf
    ensures s in at && at[s] in h.nodes && h.nodes[at[s]].record == lib.classOf[s]
  {
  }

  /** The same children under the same strings, and records that fit the new library. */
  lemma TrieSame(h: Heap, g: Heap, lib: Lib, lib': Lib, at: map<string, Ref>, root: Ref)
    requires TrieOk(h, lib, at, root, {}) && g.nodes.Keys == h.nodes.Keys && lib'.classOf.Keys == lib.classOf.Keys
    requires forall s :: s in at ==>
      at[s] in h.nodes && at[s] in g.nodes && g.nodes[at[s]].children == h.nodes[at[s]].children
    requires forall s :: s in lib'.classOf ==> s in at && g.nodes[at[s]].record == lib'.classOf[s]
    ensures TrieOk(g, lib', at, root, {})
  {
    hide Slot, HasString;
    assert PlacesOk(g, lib', at, root);
    forall s | s in at ensures SlotsOk(g, at, s) { assert SlotsOk(h, at, s); }
  }

  lemma JoinedKeys(h: Heap, large: Class, a: seq<Ref>, small: Class, b: seq<Ref>)
    requires large in h.records && small in h.records && a != [] && b != [] && a[0] in h.nodes && b[|b| - 1] in h.nodes
    requires large != small
    ensures Joined(h, large, a, small, b).nodes.Keys == h.nodes.Keys
    ensures Joined(h, large, a, small, b).records.Keys == h.records.Keys - {small}
  {
  }

  lemma LargeListed(lib: Lib, large: Class, small: Class)
    requires LibOk(lib) && large in lib.lists && small in lib.lists
    ensures lib.lists[large] != [] && lib.lists[small] != []
  {
    assert ListOk(lib, large) && ListOk(lib, small);
  }

  /** The nodes of a list are those of the strings of its class. */
  lemma InSmall(h: Heap, lib: Lib, at: map<string, Ref>, root: Ref, small: Class, s: string)
    requires Rep(h, lib, at, root, {}) && small in lib.lists && s in lib.classOf
    ensures Placed(at, lib.lists[small]) && s in at
    ensures at[s] in Refs(at, lib.lists[small]) <==> lib.classOf[s] == small
  {
    hide ListRep, SlotsOk;
    var l := lib.lists[small];
    assert ListOk(lib, small) && StoredOk(lib, s) && Placed(at, l);
    var refs := Refs(at, l);
    if lib.classOf[s] == small {
      var i :| 0 <= i < |l| && l[i] == s;
      assert refs[i] == at[s];
    } else {
      forall i | 0 <= i < |l| ensures refs[i] != at[s] { assert l[i] in l; }
    }
  }

  /** Joining the lists of two classes merges the classes. */
  lemma JoinedRep(h: Heap, lib: Lib, at: map<string, Ref>, root: Ref, large: Class, small: Class)
    requires Rep(h, lib, at, root, {}) && large in lib.lists && small in lib.lists && large != small
    ensures Placed(at, lib.lists[large]) && Placed(at, lib.lists[small])
    ensures var a, b := Refs(at, lib.lists[large]), Refs(at, lib.lists[small]);
      && large in h.records && small in h.records && a != [] && b != []
      && a[0] in h.nodes && b[|b| - 1] in h.nodes
      && Rep(Joined(h, large, a, small, b), Merged(lib, large, small), at, root, {})
  {
    hide ListRep, LibOk, Joined, TrieOk;
    assert LibOk(lib);
    MergedOk(lib, large, small);
    Joinable(h, lib, at, root, large, small);
    JoinedTrie(h, lib, at, root, large, small);
    var a, b := Refs(at, lib.lists[large]), Refs(at, lib.lists[small]);
    var g, lib' := Joined(h, large, a, small, b), Merged(lib, large, small);
    JoinedKeys(h, large, a, small, b);
    InTrie(h, lib, at, root, {});
    forall x | x in lib'.lists ensures Placed(at, lib'.lists[x]) && ListRep(g, x, Refs(at, lib'.lists[x])) {
      if x == large {
        JoinedList(h, large, a, small, b);
        assert Placed(at, lib'.lists[x]);
        assert Refs(at, lib'.lists[x]) == b + a;
      } else {
        Apart(h, lib, at, root, {}, x, large);
        Apart(h, lib, at, root, {}, x, small);
        JoinedOther(h, large, a, small, b, x, Refs(at, lib.lists[x]));
      }
    }
  }
}
