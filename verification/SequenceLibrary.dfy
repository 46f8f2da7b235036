/** The library of sequences over its nodes and records, rewritten in place. */
module SequenceLibrary {
  import opened SequenceClasses
  import opened SequenceHeap

  function DigitOf(c: char): nat
    requires Digit(c)
  {
    c as int - '0' as int
  }

  lemma DigitIs(c: char)
    requires Digit(c)
    ensures DigitOf(c) < 3 && DigitChar(DigitOf(c)) == c
  {
  }

  /** When a prefix is missing, so is everything that begins with it. */
  lemma {:induction false} PrefixMissing(lib: Lib, s: string, i: nat, n: nat)
    requires LibOk(lib) && 0 < i <= n <= |s| && s[..i] !in lib.classOf
    ensures s[..n] !in lib.classOf
    decreases n
  {
    if i < n && s[..n] in lib.classOf {
      assert StoredOk(lib, s[..n]);
      assert s[..n][..n - 1] == s[..n - 1];
      PrefixMissing(lib, s, i, n - 1);
    }
  }

  /** The stored strings that go on from s with one of the first n digits. */
  function Below(lib: Lib, s: string, n: nat): set<string>
    requires n <= 3
  {
    set t | t in lib.classOf && |t| > |s| && s <= t && (exists d: nat :: d < n && t[|s|] == DigitChar(d))
  }

  lemma BelowNext(lib: Lib, s: string, n: nat)
    requires n < 3
    ensures Below(lib, s, n + 1) == Below(lib, s, n) + Branch(lib, s + [DigitChar(n)])
    ensures Branch(Without(lib, Below(lib, s, n)), s + [DigitChar(n)]) == Branch(lib, s + [DigitChar(n)])
  {
    var u := s + [DigitChar(n)];
    forall t: string | t in lib.classOf ensures u <= t <==> |t| > |s| && s <= t && t[|s|] == DigitChar(n) {
      if u <= t { assert t[..|u|] == u && t[..|s|] == u[..|s|] == s; }
      if |t| > |s| && s <= t && t[|s|] == DigitChar(n) { assert t[..|u|] == t[..|s|] + [t[|s|]]; }
    }
  }

  /** Everything that begins with s is s itself or goes on with one of the three digits. */
  lemma BelowAll(lib: Lib, s: string)
    requires LibOk(lib)
    ensures Branch(lib, s) == Below(lib, s, 3) + (if s in lib.classOf then {s} else {})
  {
    forall t | t in lib.classOf && s <= t && t != s ensures t in Below(lib, s, 3) {
      assert StoredOk(lib, t);
      assert t[..|s|] == s && |t| > |s|;
      DigitIs(t[|s|]);
    }
  }

  // ----- what is used about the places of strings

  lemma RootPlace(h: Heap, lib: Lib, at: map<string, Ref>, root: Ref)
    requires Rep(h, lib, at, root, {})
    ensures "" in at && at[""] == root && LibOk(lib)
  {
  }

  lemma NotEmpty(s: string)
    requires StringValid(s)
    ensures s != ""
  {
  }

  lemma LibIn(h: Heap, lib: Lib, at: map<string, Ref>, root: Ref, open: set<string>)
    requires Rep(h, lib, at, root, open)
    ensures LibOk(lib) && at.Keys == lib.classOf.Keys + {""}
  {
  }

  lemma ChildPlace(h: Heap, lib: Lib, at: map<string, Ref>, root: Ref, open: set<string>, s: string, d: nat)
    requires Rep(h, lib, at, root, open) && s in at && s !in open && d < 3
    ensures at[s] in h.nodes && |h.nodes[at[s]].children| == 3 && h.nodes[at[s]].children[d] == Slot(at, s, d)
    ensures s + [DigitChar(d)] in at ==> at[s + [DigitChar(d)]] != NULL
  {
    assert SlotsOk(h, at, s);
  }

  lemma MissingPlace(h: Heap, lib: Lib, at: map<string, Ref>, root: Ref, s: string, i: nat, n: nat)
    requires Rep(h, lib, at, root, {}) && 0 < i <= n <= |s| && s[..i] !in at
    ensures s[..n] !in at
  {
    PrefixMissing(lib, s, i, n);
    assert s[..n] != "";
  }

  lemma StoredPlace(h: Heap, lib: Lib, at: map<string, Ref>, root: Ref, open: set<string>, t: string)
    requires Rep(h, lib, at, root, open) && t != ""
    ensures t in at <==> t in lib.classOf
  {
  }

  lemma NewOrOld(before: Lib, lib: Lib, t: string)
    requires LibOk(before) && t != "" && Added(before, lib, t[..|t| - 1])
    ensures t in lib.classOf <==> t in before.classOf
    ensures t in before.classOf ==> |t| == 1 || t[..|t| - 1] in before.classOf
  {
    assert !Prefix(t, t[..|t| - 1]);
    if t in before.classOf { assert StoredOk(before, t); }
  }

  lemma FreedChildren(h: Heap, p: Ref)
    requires Detachable(h, p)
    ensures forall n :: n in Freed(h, p).nodes ==> n in h.nodes && Freed(h, p).nodes[n].children == h.nodes[n].children
    ensures forall c :: c in Freed(h, p).records ==> c in h.records
  {
    hide Freed;
    FreedKeys(h, p);
    forall n | n in Freed(h, p).nodes ensures n in h.nodes && Freed(h, p).nodes[n].children == h.nodes[n].children {
      FreedFields(h, p, n);
    }
  }

  lemma OpenMore(h: Heap, lib: Lib, at: map<string, Ref>, root: Ref, open: set<string>, s: string)
    requires Rep(h, lib, at, root, open)
    ensures Rep(h, lib, at, root, open + {s})
  {
  }

  lemma NothingBelow(lib: Lib, s: string)
    requires LibOk(lib)
    ensures Below(lib, s, 0) == {} && Without(lib, {}) == lib
  {
    hide LibOk, Dropped;
    forall c | c in lib.lists ensures Dropped(lib.lists[c], {}) == lib.lists[c] && lib.lists[c] != [] {
      ListThere(lib, c);
      DroppedNothing(lib.lists[c], {});
    }
    assert (Without(lib, {})).lists == lib.lists;
    assert (Without(lib, {})).classOf == lib.classOf;
  }

  lemma ListThere(lib: Lib, c: Class)
    requires LibOk(lib) && c in lib.lists
    ensures lib.lists[c] != []
  {
    assert ListOk(lib, c);
  }

  /** What the next digit of s means while s is being added. */
  lemma AddStep(h: Heap, before: Lib, lib: Lib, at: map<string, Ref>, root: Ref, s: string, i: nat, c: Class)
    requires Rep(h, lib, at, root, {}) && LibOk(before) && StringValid(s) && i < |s| && s[..i] in at
    requires Added(before, lib, s[..i]) && c !in lib.lists
    ensures var d := DigitOf(s[i]); var t := s[..i + 1];
      && d < 3 && t == s[..i] + [DigitChar(d)] && StringValid(t)
      && at[s[..i]] in h.nodes && |h.nodes[at[s[..i]]].children| == 3
      && h.nodes[at[s[..i]]].children[d] == (if t in at then at[t] else NULL)
      && (t in at ==> at[t] != NULL)
      && (t in at <==> t in before.classOf) && (t in before.classOf ==> i == 0 || s[..i] in before.classOf)
      && var after := if t in at then lib else AddOne(lib, t, c);
         LibOk(after) && Added(before, after, t)
  {
    hide Rep, Added, LibOk, AddOne;
    var t := s[..i + 1];
    DigitIs(s[i]);
    ChildPlace(h, lib, at, root, {}, s[..i], DigitOf(s[i]));
    assert t == s[..i] + [s[i]] && t[..i] == s[..i];
    StoredPlace(h, lib, at, root, {}, t);
    LibIn(h, lib, at, root, {});
    NewOrOld(before, lib, t);
    AddedNext(before, lib, t, c);
  }

  // ----- the steps of deleting a branch

  lemma BranchStep(lib: Lib, s: string, i: nat)
    requires i < 3 && s in lib.classOf
    ensures var u := s + [DigitChar(i)]; var left := Without(lib, Below(lib, s, i));
      && (u in left.classOf <==> u in lib.classOf)
      && Branch(left, u) == Branch(lib, u) && Branch(lib, u) < Branch(lib, s)
      && u != "" && u[..|u| - 1] == s && !(u <= s) && s !in Below(lib, s, i + 1)
  {
    var u := s + [DigitChar(i)];
    BelowNext(lib, s, i);
    forall t | t in Branch(lib, u) ensures t in Branch(lib, s) { assert t[..|s|] == u[..|s|] == s; }
    assert s in Branch(lib, s) && s !in Branch(lib, u);
    assert u !in Below(lib, s, i) by {
      forall d: nat | d < i ensures u[|s|] != DigitChar(d) {}
    }
  }

  lemma NoBranch(lib: Lib, u: string)
    requires LibOk(lib) && u != "" && u !in lib.classOf
    ensures Branch(lib, u) == {} && forall t :: t in lib.classOf ==> !(u <= t)
  {
    forall t | t in lib.classOf ensures !(u <= t) {
      if u <= t {
        assert t[..|u|] == u && t[..|t|] == t;
        PrefixMissing(lib, t, |u|, |t|);
      }
    }
  }

  /** One more branch is gone. */
  lemma BranchGone(lib: Lib, s: string, i: nat)
    requires i < 3
    ensures var u := s + [DigitChar(i)];
      && Without(Without(lib, Below(lib, s, i)), Branch(lib, u)) == Without(lib, Below(lib, s, i + 1))
      && forall t :: t in Below(lib, s, i + 1) <==> t in Below(lib, s, i) || (t in lib.classOf && u <= t)
  {
    BelowNext(lib, s, i);
    WithoutTwice(lib, Below(lib, s, i), Branch(lib, s + [DigitChar(i)]));
  }

  /** Only the node itself is left, and then nothing. */
  lemma LeafLeft(lib: Lib, s: string)
    requires LibOk(lib) && s in lib.classOf
    ensures var left := Without(lib, Below(lib, s, 3));
      && s in left.classOf && (forall t :: t in left.classOf && s <= t ==> t == s)
      && Without(left, {s}) == Without(lib, Branch(lib, s))
    ensures forall t :: t in Below(lib, s, 3) || t == s <==> t in lib.classOf && s <= t
  {
    BelowAll(lib, s);
    WithoutTwice(lib, Below(lib, s, 3), {s});
  }

  class Sequences {
    var nodes: map<Ref, Node>
    var records: map<Class, Record>
    const root: Ref
    var nextNode: Ref
    var nextRecord: Class
    ghost var lib: Lib
    ghost var at: map<string, Ref>

    function HeapOf(): Heap
      reads this
    {
      Heap(nodes, records)
    }

    ghost predicate Unused()
      reads this
    {
      nextNode != NULL && (forall n :: n in nodes ==> n < nextNode) && (forall c :: c in records ==> c < nextRecord)
    }

    ghost predicate ValidOpen(open: set<string>)
      reads this
    {
      Unused() && Rep(HeapOf(), lib, at, root, open)
    }

    ghost predicate Valid()
      reads this
    {
      ValidOpen({})
    }

    constructor ()
      ensures Valid() && lib == Lib(map[], map[])
    {
      root := 1;
      nodes, records := map[1 := Node([NULL, NULL, NULL], NULL, NULL, 0)], map[];
      nextNode, nextRecord := 2, 0;
      lib, at := Lib(map[], map[]), map["" := 1];
      new;
      forall d: nat | d < 3 ensures nodes[1].children[d] == Slot(at, "", d) {
        assert "" + [DigitChar(d)] != "";
      }
      assert SlotsOk(HeapOf(), at, "");
    }

    /** Walks down the trie along the first `length` digits; i is -1 when there is no way. */
    method FindSeq(s: string, length: nat) returns (i: int, p: Ref)
      requires Valid() && StringValid(s) && length <= |s|
      ensures s[..length] in at ==> i == length && p == at[s[..length]]
      ensures s[..length] !in at ==> i == -1
    {
      hide Rep;
      i, p := 0, root;
      RootPlace(HeapOf(), lib, at, root);
      assert s[..0] == "";
      while i < length && i >= 0
        invariant -1 <= i <= length
        invariant i >= 0 ==> s[..i] in at && p == at[s[..i]]
        invariant i < 0 ==> s[..length] !in at
        decreases if i < 0 then 0 else length - i + 1
      {
        DigitIs(s[i]);
        ChildPlace(HeapOf(), lib, at, root, {}, s[..i], DigitOf(s[i]));
        assert s[..i + 1] == s[..i] + [s[i]];
        if nodes[p].children[DigitOf(s[i])] != NULL {
          p := nodes[p].children[DigitOf(s[i])];
        } else {
          MissingPlace(HeapOf(), lib, at, root, s, i + 1, length);
          i := -2;
        }
        i := i + 1;
      }
    }

    method SeqValid(s: string) returns (r: int)
      requires Valid()
      ensures r == if !StringValid(s) then -1 else if s in lib.classOf then 1 else 0
    {
      if StringValid(s) {
        var i, _ := FindSeq(s, |s|);
        assert s[..|s|] == s;
        return if i == -1 then 0 else 1;
      }
      return -1;
    }

    method CreateTreeNode(parent: Ref, d: nat, ghost s: string) returns (node: Ref)
      requires Valid() && d < 3 && s in at && parent == at[s] && s + [DigitChar(d)] !in at
      requires StringValid(s + [DigitChar(d)])
      modifies this
      ensures Valid() && node != NULL
      ensures at == old(at)[s + [DigitChar(d)] := node]
      ensures old(nextRecord) !in old(lib.lists) && lib == AddOne(old(lib), s + [DigitChar(d)], old(nextRecord))
    {
      hide Rep;
      InTrie(HeapOf(), lib, at, root, {});
      CreatedRep(HeapOf(), lib, at, root, s, d, nextNode, nextRecord);
      node := nextNode;
      nodes := nodes[node := Node([NULL, NULL, NULL], NULL, NULL, nextRecord)];
      records := records[nextRecord := Record(1, node, node)];
      nodes := nodes[parent := nodes[parent].(children := nodes[parent].children[d := node])];
      lib, at := AddOne(lib, s + [DigitChar(d)], nextRecord), at[s + [DigitChar(d)] := node];
      nextNode, nextRecord := nextNode + 1, nextRecord + 1;
    }

    method SeqAdd(s: string) returns (value: int)
      requires Valid()
      modifies this
      ensures Valid() && LibOk(old(lib)) && Does(AddOp(s), old(lib), lib)
      ensures value == if !StringValid(s) then -1 else if s in old(lib.classOf) then 0 else 1
    {
      hide Rep, Added, LibOk, AddOne, StringValid;
      RootPlace(HeapOf(), lib, at, root);
      if !StringValid(s) { return -1; }
      value := 0;
      var pointer := root;
      AddedNothing(lib);
      assert s[..0] == "";
      for i := 0 to |s|
        invariant Valid() && LibOk(lib) && s[..i] in at && pointer == at[s[..i]]
        invariant Added(old(lib), lib, s[..i])
        invariant value == if i == 0 || s[..i] in old(lib.classOf) then 0 else 1
      {
        InTrie(HeapOf(), lib, at, root, {});
        AddStep(HeapOf(), old(lib), lib, at, root, s, i, nextRecord);
        var d := DigitOf(s[i]);
        if nodes[pointer].children[d] != NULL {
          pointer := nodes[pointer].children[d];
        } else {
          pointer := CreateTreeNode(pointer, d, s[..i]);
          value := 1;
        }
      }
      assert s[..|s|] == s;
      NotEmpty(s);
    }

    /** The node's neighbours in its list, and its record, are put right. */
    method AdjustNodeListOrder(p: Ref)
      requires Detachable(HeapOf(), p)
      modifies this`nodes, this`records
      ensures HeapOf() == Adjusted(old(HeapOf()), p)
    {
      var n := nodes[p];
      if n.next != NULL || n.prev != NULL {
        if n.next != NULL && n.prev != NULL {
          nodes := nodes[n.prev := nodes[n.prev].(next := n.next)];
          nodes := nodes[n.next := nodes[n.next].(prev := n.prev)];
        } else if n.next == NULL {
          nodes := nodes[n.prev := nodes[n.prev].(next := NULL)];
          records := records[n.record := records[n.record].(end := n.prev)];
        } else if n.prev == NULL {
          nodes := nodes[n.next := nodes[n.next].(prev := NULL)];
          records := records[n.record := records[n.record].(beginning := n.next)];
        }
      }
    }

    /** A leaf leaves its list and is freed, and so is its record when it was the last one. */
    method FreeNode(p: Ref, ghost s: string, ghost open: set<string>)
      requires ValidOpen(open) && s in lib.classOf && s in at && p == at[s] && s != "" && s[..|s| - 1] in open
      requires forall t :: t in lib.classOf && s <= t ==> t == s
      modifies this
      ensures ValidOpen(open - {s}) && lib == Without(old(lib), {s}) && at == old(at) - {s}
      ensures forall n :: n in nodes ==> n in old(nodes) && nodes[n].children == old(nodes)[n].children
    {
      hide Rep;
      ghost var h := HeapOf();
      FreedRep(h, lib, at, root, open, s);
      FreedChildren(h, p);
      var c := nodes[p].record;
      records := records[c := records[c].(size := records[c].size - 1)];
      AdjustNodeListOrder(p);
      if records[c].size == 0 { records := records - {c}; }
      nodes := nodes - {p};
      lib, at := Without(lib, {s}), at - {s};
      assert HeapOf() == Freed(h, p);
    }

    /** Deletes the node of s and everything below it, children first. The slots of the open
        strings, one of which is the parent, are not kept up to date. */
    method SeqDelete(p: Ref, ghost s: string, ghost open: set<string>)
      requires ValidOpen(open) && s in lib.classOf && s in at && p == at[s] && s != "" && s[..|s| - 1] in open
      requires forall t :: t in open ==> !(s <= t)
      modifies this
      ensures ValidOpen(open) && lib == Without(old(lib), Branch(old(lib), s))
      ensures forall t :: t in old(at) && !(s <= t) ==> t in at && at[t] == old(at)[t]
      ensures forall t :: t in at ==> t in old(at) && !(s <= t)
      ensures forall n :: n in nodes ==> n in old(nodes) && nodes[n].children == old(nodes)[n].children
      decreases Branch(lib, s)
    {
      hide Rep, Without, Branch, Below, LibOk, SlotsOk, DigitChar;
      ghost var start, places, h := lib, at, HeapOf();
      LibIn(h, lib, at, root, open);
      InTrie(h, lib, at, root, open);
      OpenMore(h, lib, at, root, open, s);
      NothingBelow(lib, s);
      for i := 0 to 3
        invariant ValidOpen(open + {s}) && lib == Without(start, Below(start, s, i))
        invariant forall t :: t in places && t !in Below(start, s, i) ==> t in at && at[t] == places[t]
        invariant forall t :: t in at ==> t in places && t !in Below(start, s, i)
        invariant p in nodes && forall n :: n in nodes ==> n in h.nodes && nodes[n].children == h.nodes[n].children
      {
        ghost var u := s + [DigitChar(i)];
        BranchStep(start, s, i);
        ChildPlace(h, start, places, root, open, s, i);
        StoredPlace(h, start, places, root, open, u);
        StoredPlace(HeapOf(), lib, at, root, open + {s}, u);
        BranchGone(start, s, i);
        var child := nodes[p].children[i];
        if child != NULL {
          SeqDelete(child, u, open + {s});
        } else {
          NoBranch(start, u);
          LibIn(HeapOf(), lib, at, root, open + {s});
          NothingBelow(lib, s);
        }
        InTrie(HeapOf(), lib, at, root, open + {s});
      }
      LeafLeft(start, s);
      StoredPlace(HeapOf(), lib, at, root, open + {s}, s);
      FreeNode(p, s, open + {s});
      assert open + {s} - {s} == open;
    }

    /** The slot of the parent is emptied and what hung there is deleted. */
    method CutBranch(help: Ref, d: nat, pointer: Ref, ghost parent: string, ghost s: string)
      requires Valid() && d < 3 && s == parent + [DigitChar(d)] && s in lib.classOf
      requires parent in at && s in at && help == at[parent] && pointer == at[s]
      modifies this
      ensures Valid() && lib == Without(old(lib), Branch(old(lib), s))
    {
      hide Rep, Without, Branch;
      ghost var places, h := at, HeapOf();
      InTrie(h, lib, at, root, {});
      SlotNulled(h, lib, at, root, parent, d);
      nodes := nodes[help := nodes[help].(children := nodes[help].children[d := NULL])];
      assert s[..|s| - 1] == parent;
      SeqDelete(pointer, s, {parent});
      InTrie(HeapOf(), lib, at, root, {parent});
      SlotClosed(h, HeapOf(), old(lib), lib, places, at, root, parent, d, s);
    }

    method SeqRemove(s: string) returns (r: int)
      requires Valid()
      modifies this
      ensures Valid() && LibOk(old(lib)) && Does(RemoveOp(s), old(lib), lib)
      ensures r == if !StringValid(s) then -1 else if s in old(lib.classOf) then 1 else 0
    {
      hide Rep, Without, Branch;
      RootPlace(HeapOf(), lib, at, root);
      if !StringValid(s) { return -1; }
      assert s[..|s|] == s;
      StoredPlace(HeapOf(), lib, at, root, {}, s);
      var i, pointer := FindSeq(s, |s|);
      if i == |s| {
        ParentStored(lib, s);
        StoredPlaces(HeapOf(), lib, at, root, s[..|s| - 1]);
        var j, help := FindSeq(s, |s| - 1);
        DigitIs(s[|s| - 1]);
        assert s == s[..|s| - 1] + [DigitChar(DigitOf(s[|s| - 1]))];
        CutBranch(help, DigitOf(s[|s| - 1]), pointer, s[..|s| - 1], s);
        return 1;
      }
      NothingStored(lib, s);
      return 0;
    }

    /** The class with at least as many strings as the other is the larger one. */
    method SetClassHierarchy(pointer1: Ref, pointer2: Ref, ghost s1: string, ghost s2: string)
      returns (larger: Ref, smaller: Ref)
      requires Valid() && s1 in lib.classOf && s2 in lib.classOf && s1 in at && s2 in at
      requires pointer1 == at[s1] && pointer2 == at[s2]
      ensures var c1, c2 := lib.classOf[s1], lib.classOf[s2];
        && c1 in lib.lists && c2 in lib.lists && c1 in records && c2 in records
        && larger == records[Larger(lib, c1, c2)].beginning
        && smaller == records[if Larger(lib, c1, c2) == c1 then c2 else c1].beginning
    {
      hide Rep;
      RecordOf(HeapOf(), lib, at, root, s1);
      RecordOf(HeapOf(), lib, at, root, s2);
      if records[nodes[pointer1].record].size >= records[nodes[pointer2].record].size {
        larger := records[nodes[pointer1].record].beginning;
        smaller := records[nodes[pointer2].record].beginning;
      } else {
        larger := records[nodes[pointer2].record].beginning;
        smaller := records[nodes[pointer1].record].beginning;
      }
    }

    /** The nodes of the smaller class are relabelled one by one, up to its end, which is then
        linked to the beginning of the larger class. */
    method MergeClasses(larger: Ref, smaller: Ref, ghost large: Class, ghost small: Class)
      requires Valid() && large in lib.lists && small in lib.lists && large != small
      requires large in records && small in records
      requires larger == records[large].beginning && smaller == records[small].beginning
      modifies this
      ensures Valid() && at == old(at) && lib == Merged(old(lib), large, small)
    {
      hide Rep, ListRep, Relabelled, Merged, AllDistinct, Joined;
      ghost var h := HeapOf();
      MergeReady(h, lib, at, root, large, small);
      ghost var a, b := Refs(at, lib.lists[large]), Refs(at, lib.lists[small]);
      var current := smaller;
      var record := nodes[larger].record;
      records := records[record := Record(records[record].size + records[nodes[smaller].record].size,
                                          records[nodes[smaller].record].beginning, records[record].end)];
      ghost var joined := records;
      ghost var k := 0;
      RelabelNothing(h.nodes, large);
      while current != records[nodes[current].record].end
        invariant k < |b| && current == b[k] && current in nodes && nodes[current].record == small
        invariant nodes == Relabelled(h.nodes, b[..k], large) && records == joined
        invariant lib == old(lib) && at == old(at) && nextNode == old(nextNode) && nextRecord == old(nextRecord)
        decreases |b| - k
      {
        NextOf(h, small, b, k);
        RelabelNext(h.nodes, b, large, k);
        nodes := nodes[current := nodes[current].(record := record)];
        current := nodes[current].next;
        k := k + 1;
      }
      EndOf(b, k);
      RelabelNext(h.nodes, b, large, k);
      assert b[..k + 1] == b;
      JoinedIs(h, large, a, small, b, k);
      records := records - {nodes[current].record};
      nodes := nodes[current := nodes[current].(record := record)];
      nodes := nodes[current := nodes[current].(next := larger)];
      nodes := nodes[larger := nodes[larger].(prev := current)];
      JoinedKeys(h, large, a, small, b);
      lib := Merged(lib, large, small);
    }

    method SeqEquiv(s1: string, s2: string) returns (r: int)
      requires Valid()
      modifies this
      ensures Valid() && LibOk(old(lib)) && Does(EquivOp(s1, s2), old(lib), lib)
      ensures r == if !StringValid(s1) || !StringValid(s2) then -1
                   else if s1 in old(lib.classOf) && s2 in old(lib.classOf) && !Same(old(lib), s1, s2) then 1 else 0
    {
      hide Rep, Merged;
      RootPlace(HeapOf(), lib, at, root);
      if !StringValid(s1) || !StringValid(s2) { return -1; }
      assert s1[..|s1|] == s1 && s2[..|s2|] == s2;
      StoredPlace(HeapOf(), lib, at, root, {}, s1);
      StoredPlace(HeapOf(), lib, at, root, {}, s2);
      var i1, pointer1 := FindSeq(s1, |s1|);
      var i2, pointer2 := 0, root;
      if i1 != -1 { i2, pointer2 := FindSeq(s2, |s2|); }
      if i1 == -1 || i2 == -1 { return 0; }
      RecordOf(HeapOf(), lib, at, root, s1);
      RecordOf(HeapOf(), lib, at, root, s2);
      if nodes[pointer1].record == nodes[pointer2].record { return 0; }
      ghost var c1, c2 := lib.classOf[s1], lib.classOf[s2];
      var larger, smaller := SetClassHierarchy(pointer1, pointer2, s1, s2);
      ghost var large := Larger(lib, c1, c2);
      MergeClasses(larger, smaller, large, if large == c1 then c2 else c1);
      return 1;
    }
  }

  // ----- what the steps of removing and merging use

  lemma ParentStored(lib: Lib, s: string)
    requires LibOk(lib) && s in lib.classOf
    ensures s != "" && (s[..|s| - 1] == "" || s[..|s| - 1] in lib.classOf)
  {
    assert StoredOk(lib, s);
  }

  lemma StoredPlaces(h: Heap, lib: Lib, at: map<string, Ref>, root: Ref, t: string)
    requires Rep(h, lib, at, root, {}) && (t == "" || t in lib.classOf)
    ensures t in at
  {
  }

  lemma NothingStored(lib: Lib, s: string)
    requires LibOk(lib) && s != "" && s !in lib.classOf
    ensures Without(lib, Branch(lib, s)) == lib
  {
    NoBranch(lib, s);
    NothingBelow(lib, s);
  }

  function WithNull(h: Heap, p: Ref, d: nat): Heap
    requires p in h.nodes && d < |h.nodes[p].children|
  {
    var n := h.nodes[p];
    Heap(h.nodes[p := n.(children := n.children[d := NULL])], h.records)
  }

  lemma NulledTrie(h: Heap, lib: Lib, at: map<string, Ref>, root: Ref, parent: string, d: nat)
    requires TrieOk(h, lib, at, root, {}) && parent in at && d < 3
    ensures at[parent] in h.nodes && |h.nodes[at[parent]].children| == 3
    ensures TrieOk(WithNull(h, at[parent], d), lib, at, root, {parent})
  {
    hide Slot, HasString;
    var g := WithNull(h, at[parent], d);
    assert g.nodes.Keys == h.nodes.Keys;
    assert PlacesOk(g, lib, at, root);
    forall s | s in at && s != parent ensures SlotsOk(g, at, s) { assert SlotsOk(h, at, s); }
  }

  lemma NulledLists(h: Heap, lib: Lib, at: map<string, Ref>, p: Ref, d: nat)
    requires ListsOk(h, lib, at) && p in h.nodes && d < |h.nodes[p].children|
    ensures ListsOk(WithNull(h, p, d), lib, at)
  {
    hide ListRep;
    var g := WithNull(h, p, d);
    forall c | c in lib.lists ensures Placed(at, lib.lists[c]) && ListRep(g, c, Refs(at, lib.lists[c])) {
      assert Placed(at, lib.lists[c]) && ListRep(h, c, Refs(at, lib.lists[c]));
      RecordThere(h, c, Refs(at, lib.lists[c]));
      ListKept(h, g, c, Refs(at, lib.lists[c]));
    }
  }

  lemma SlotNulled(h: Heap, lib: Lib, at: map<string, Ref>, root: Ref, parent: string, d: nat)
    requires Rep(h, lib, at, root, {}) && parent in at && d < 3
    ensures at[parent] in h.nodes && |h.nodes[at[parent]].children| == 3
    ensures var n := h.nodes[at[parent]];
      Rep(Heap(h.nodes[at[parent] := n.(children := n.children[d := NULL])], h.records), lib, at, root, {parent})
  {
    hide LibOk, TrieOk, ListsOk;
    NulledTrie(h, lib, at, root, parent, d);
    NulledLists(h, lib, at, at[parent], d);
  }

  lemma SlotAfter(places: map<string, Ref>, at: map<string, Ref>, parent: string, d: nat, e: nat, s: string)
    requires d < 3 && e < 3 && s == parent + [DigitChar(d)]
    requires forall t :: t in places && !(s <= t) ==> t in at && at[t] == places[t]
    requires forall t :: t in at ==> t in places && !(s <= t)
    ensures Slot(at, parent, e) == if e == d then NULL else Slot(places, parent, e)
  {
    var t := parent + [DigitChar(e)];
    assert t[|parent|] == DigitChar(e) && s[|parent|] == DigitChar(d);
    assert e != d ==> !(s <= t);
  }

  /** With the branch gone, the emptied slot is right again. */
  lemma SlotClosed(h: Heap, g: Heap, before: Lib, lib: Lib, places: map<string, Ref>, at: map<string, Ref>, root: Ref,
                   parent: string, d: nat, s: string)
    requires Rep(h, before, places, root, {}) && Rep(g, lib, at, root, {parent}) && d < 3 && s == parent + [DigitChar(d)]
    requires parent in places && parent in at && at[parent] == places[parent]
    requires at[parent] in h.nodes && at[parent] in g.nodes && |h.nodes[at[parent]].children| == 3
    requires g.nodes[at[parent]].children == h.nodes[at[parent]].children[d := NULL]
    requires forall t :: t in places && !(s <= t) ==> t in at && at[t] == places[t]
    requires forall t :: t in at ==> t in places && !(s <= t)
    ensures Rep(g, lib, at, root, {})
  {
    hide LibOk, ListsOk, Slot, PlacesOk;
    InTrie(g, lib, at, root, {parent});
    assert SlotsOk(h, places, parent);
    forall e: nat | e < 3 ensures g.nodes[at[parent]].children[e] == Slot(at, parent, e) {
      SlotAfter(places, at, parent, d, e, s);
      assert h.nodes[at[parent]].children[e] == Slot(places, parent, e);
    }
  }

  lemma RecordIs(h: Heap, c: Class, refs: seq<Ref>)
    requires ListRep(h, c, refs)
    ensures refs != [] && c in h.records && h.records[c] == Record(|refs|, refs[0], refs[|refs| - 1])
  {
  }

  lemma RecordOf(h: Heap, lib: Lib, at: map<string, Ref>, root: Ref, s: string)
    requires Rep(h, lib, at, root, {}) && s in lib.classOf
    ensures s in at && at[s] in h.nodes && h.nodes[at[s]].record == lib.classOf[s]
    ensures lib.classOf[s] in lib.lists && lib.classOf[s] in h.records
    ensures h.records[lib.classOf[s]].size == |lib.lists[lib.classOf[s]]|
  {
    hide Rep, ListRep;
    var k := PlaceInList(h, lib, at, root, {}, s);
    RecordIs(h, lib.classOf[s], Refs(at, lib.lists[lib.classOf[s]]));
  }

  lemma ListLabels(h: Heap, lib: Lib, at: map<string, Ref>, root: Ref, c: Class)
    requires Rep(h, lib, at, root, {}) && c in lib.lists && Placed(at, lib.lists[c])
    ensures forall i :: 0 <= i < |lib.lists[c]| ==>
      at[lib.lists[c][i]] in h.nodes && h.nodes[at[lib.lists[c][i]]].record == c
  {
    hide ListRep, SlotsOk;
    assert ListOk(lib, c);
    forall i | 0 <= i < |lib.lists[c]|
      ensures at[lib.lists[c][i]] in h.nodes && h.nodes[at[lib.lists[c][i]]].record == c
    {
      assert lib.lists[c][i] in lib.lists[c];
    }
  }

  /** Everything about the two lists that merging them relies on. */
  lemma MergeReady(h: Heap, lib: Lib, at: map<string, Ref>, root: Ref, large: Class, small: Class)
    requires Rep(h, lib, at, root, {}) && large in lib.lists && small in lib.lists && large != small
    ensures Placed(at, lib.lists[large]) && Placed(at, lib.lists[small])
    ensures var a, b := Refs(at, lib.lists[large]), Refs(at, lib.lists[small]);
      && a != [] && b != [] && AllDistinct(b) && ListRep(h, small, b)
      && a[0] in h.nodes && b[|b| - 1] in h.nodes && h.nodes[a[0]].record == large
      && (forall i :: 0 <= i < |b| ==> b[i] in h.nodes && h.nodes[b[i]].record == small)
      && large in h.records && h.records[large] == Record(|a|, a[0], a[|a| - 1])
      && small in h.records && h.records[small] == Record(|b|, b[0], b[|b| - 1])
      && Rep(Joined(h, large, a, small, b), Merged(lib, large, small), at, root, {})
  {
    hide Rep, ListRep, AllDistinct, Apart2;
    Joinable(h, lib, at, root, large, small);
    JoinedRep(h, lib, at, root, large, small);
    RecordIs(h, large, Refs(at, lib.lists[large]));
    RecordIs(h, small, Refs(at, lib.lists[small]));
    ListLabels(h, lib, at, root, large);
    ListLabels(h, lib, at, root, small);
  }

  lemma JoinedIs(h: Heap, large: Class, a: seq<Ref>, small: Class, b: seq<Ref>, k: nat)
    requires large in h.records && small in h.records && a != [] && b != [] && k == |b| - 1
    requires a[0] in h.nodes && b[k] in h.nodes && b[k] in Relabelled(h.nodes, b[..k], large)
    requires Relabelled(h.nodes, b, large).Keys == h.nodes.Keys
    requires Relabelled(h.nodes, b[..k + 1], large) == Relabelled(h.nodes, b[..k], large)[b[k] := h.nodes[b[k]].(record := large)]
    ensures var nodes := Relabelled(h.nodes, b[..k], large)[b[k] := h.nodes[b[k]].(record := large)];
      var linked := nodes[b[k] := nodes[b[k]].(next := a[0])];
      && a[0] in linked
      && Joined(h, large, a, small, b) ==
           Heap(linked[a[0] := linked[a[0]].(prev := b[k])],
                h.records[large := Record(h.records[large].size + h.records[small].size, h.records[small].beginning,
                                          h.records[large].end)] - {small})
  {
    assert b[..k + 1] == b;
  }

  lemma RelabelNothing(nodes: map<Ref, Node>, c: Class)
    ensures Relabelled(nodes, [], c) == nodes
  {
  }

  lemma RelabelNext(nodes: map<Ref, Node>, refs: seq<Ref>, c: Class, k: nat)
    requires k < |refs| && refs[k] in nodes && AllDistinct(refs)
    ensures refs[..0] == [] && Relabelled(nodes, refs[..k + 1], c).Keys == nodes.Keys
    ensures Relabelled(nodes, refs[..k + 1], c) == Relabelled(nodes, refs[..k], c)[refs[k] := nodes[refs[k]].(record := c)]
    ensures refs[k] in Relabelled(nodes, refs[..k], c) && Relabelled(nodes, refs[..k], c)[refs[k]] == nodes[refs[k]]
    ensures k + 1 < |refs| && refs[k + 1] in nodes ==>
      refs[k + 1] in Relabelled(nodes, refs[..k + 1], c) && Relabelled(nodes, refs[..k + 1], c)[refs[k + 1]] == nodes[refs[k + 1]]
  {
    assert refs[..k + 1] == refs[..k] + [refs[k]];
  }

  lemma NextOf(h: Heap, c: Class, refs: seq<Ref>, k: nat)
    requires ListRep(h, c, refs) && k < |refs|
    ensures refs[k] in h.nodes && (k < |refs| - 1 ==> h.nodes[refs[k]].next == refs[k + 1])
  {
    assert LinkedAt(h.nodes, refs, k);
  }

  lemma EndOf(refs: seq<Ref>, k: nat)
    requires AllDistinct(refs) && k < |refs| && refs[k] == refs[|refs| - 1]
    ensures k == |refs| - 1
  {
  }
}
