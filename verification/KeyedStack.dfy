/** A stack of pairs with access by key: one list of pairs, described by three indexes that
    hold positions in each other. */
module KeyedStack {

  datatype Error = StackIsEmpty | InvalidArgument

  datatype Outcome = Done | Failed(error: Error)

  datatype Result<T> = Ok(value: T) | Err(error: Error)

  // ----- the one list of pairs, most recent first

  function ValuesUnder<K(==), V>(pairs: seq<(K, V)>, key: K): seq<V> {
    if pairs == [] then []
    else (if pairs[0].0 == key then [pairs[0].1] else []) + ValuesUnder(pairs[1..], key)
  }

  /** The list without the most recent pair under the key. */
  function PopUnder<K(==), V>(pairs: seq<(K, V)>, key: K): seq<(K, V)> {
    if pairs == [] then []
    else if pairs[0].0 == key then pairs[1..]
    else [pairs[0]] + PopUnder(pairs[1..], key)
  }

  /** The list with another value in the most recent pair under the key. */
  function SetUnder<K(==), V>(pairs: seq<(K, V)>, key: K, value: V): seq<(K, V)> {
    if pairs == [] then []
    else if pairs[0].0 == key then [(key, value)] + pairs[1..]
    else [pairs[0]] + SetUnder(pairs[1..], key, value)
  }

  lemma ValuesStep<K, V>(head: (K, V), rest: seq<(K, V)>, key: K)
    ensures ValuesUnder([head] + rest, key) == (if head.0 == key then [head.1] else []) + ValuesUnder(rest, key)
  {
    assert ([head] + rest)[1..] == rest;
  }

  /** Popping under a key takes the head of that key's values and leaves those of every other
      key alone. */
  lemma {:induction false} PopUnderValues<K, V>(pairs: seq<(K, V)>, key: K, other: K)
    requires ValuesUnder(pairs, key) != []
    ensures ValuesUnder(PopUnder(pairs, key), other)
         == if other == key then ValuesUnder(pairs, key)[1..] else ValuesUnder(pairs, other)
  {
    var head, rest := pairs[0], pairs[1..];
    if head.0 != key {
      PopUnderValues(rest, key, other);
      ValuesStep(head, PopUnder(rest, key), other);
    }
  }

  /** The pair that goes is the first one under the key; all others keep their order. */
  lemma {:induction false} PopUnderPlace<K, V>(pairs: seq<(K, V)>, key: K) returns (i: nat)
    requires ValuesUnder(pairs, key) != []
    ensures i < |pairs| && pairs[i].0 == key && forall j :: 0 <= j < i ==> pairs[j].0 != key
    ensures PopUnder(pairs, key) == pairs[..i] + pairs[i + 1..]
  {
    if pairs[0].0 == key {
      i := 0;
    } else {
      var k := PopUnderPlace(pairs[1..], key);
      i := k + 1;
      assert forall j :: 0 < j < i ==> pairs[j] == pairs[1..][j - 1];
      assert pairs[..i] == [pairs[0]] + pairs[1..][..k];
    }
  }

  lemma {:induction false} SetUnderValues<K, V>(pairs: seq<(K, V)>, key: K, value: V, other: K)
    requires ValuesUnder(pairs, key) != []
    ensures ValuesUnder(SetUnder(pairs, key, value), other)
         == if other == key then [value] + ValuesUnder(pairs, key)[1..] else ValuesUnder(pairs, other)
  {
    hide ValuesUnder;
    ValuesNone<K, V>(key);
    var head, rest := pairs[0], pairs[1..];
    assert pairs == [head] + rest;
    ValuesStep(head, rest, key);
    ValuesStep(head, rest, other);
    if head.0 != key {
      SetUnderValues(rest, key, value, other);
      ValuesStep(head, SetUnder(rest, key, value), other);
    } else {
      ValuesStep((key, value), rest, other);
    }
  }

  lemma ValuesNone<K, V>(key: K)
    ensures ValuesUnder<K, V>([], key) == []
  {
  }

  /** What one call does, the matching call undoes; calls on different keys commute. */
  lemma StackLaws<K, V>(pairs: seq<(K, V)>, key: K, value: V, other: K)
    ensures ([(key, value)] + pairs)[1..] == pairs
    ensures PopUnder([(key, value)] + pairs, key) == pairs
    ensures other != key ==> PopUnder([(key, value)] + pairs, other) == [(key, value)] + PopUnder(pairs, other)
    ensures ValuesUnder([(key, value)] + pairs, key) == [value] + ValuesUnder(pairs, key)
    ensures other != key ==> ValuesUnder([(key, value)] + pairs, other) == ValuesUnder(pairs, other)
  {
    var all := [(key, value)] + pairs;
    assert all[1..] == pairs;
  }

  // ----- list nodes

  class ValueNode<V> {
    var value: V

    constructor (v: V)
      ensures value == v
    {
      value := v;
    }
  }

  /** A position of the global list: a key and a position in the list of that key's values. */
  class FifoNode<K, V> {
    const key: K
    const node: ValueNode<V>

    constructor (k: K, n: ValueNode<V>)
      ensures key == k && node == n
    {
      key, node := k, n;
    }
  }

  function Under<K(==), V>(nodes: seq<FifoNode<K, V>>, key: K): (r: seq<FifoNode<K, V>>)
    ensures forall n :: n in r ==> n in nodes && n.key == key
    ensures forall n :: n in nodes && n.key == key ==> n in r
  {
    if nodes == [] then []
    else (if nodes[0].key == key then [nodes[0]] else []) + Under(nodes[1..], key)
  }

  function Positions<K, V>(nodes: seq<FifoNode<K, V>>): (r: seq<ValueNode<V>>)
    ensures |r| == |nodes| && forall i :: 0 <= i < |nodes| ==> r[i] == nodes[i].node
  {
    seq(|nodes|, i requires 0 <= i < |nodes| => nodes[i].node)
  }

  function NodeSet<K, V>(nodes: seq<FifoNode<K, V>>): set<ValueNode<V>> {
    set n | n in nodes :: n.node
  }

  function PairsOf<K, V>(nodes: seq<FifoNode<K, V>>): (r: seq<(K, V)>)
    reads NodeSet(nodes)
    ensures |r| == |nodes| && forall i :: 0 <= i < |nodes| ==> r[i] == (nodes[i].key, nodes[i].node.value)
  {
    if nodes == [] then []
    else [(nodes[0].key, nodes[0].node.value)] + PairsOf(nodes[1..])
  }

  /** The list without the node. */
  function Without<N(==)>(nodes: seq<N>, n: N): seq<N> {
    if nodes == [] then [] else if nodes[0] == n then nodes[1..] else [nodes[0]] + Without(nodes[1..], n)
  }

  // ----- the indexes

  ghost predicate Separate<K, V>(nodes: seq<FifoNode<K, V>>) {
    forall i, j :: 0 <= i < j < |nodes| ==> nodes[i] != nodes[j] && nodes[i].node != nodes[j].node
  }

  /** The two maps by key describe the same nodes, in the same order, as the global list. */
  ghost predicate Agrees<K, V>(nodes: seq<FifoNode<K, V>>, orderedKeys: map<K, seq<ValueNode<V>>>,
                               iteratorsInList: map<K, seq<FifoNode<K, V>>>, key: K) {
    && (key in orderedKeys <==> Under(nodes, key) != [])
    && (key in iteratorsInList <==> Under(nodes, key) != [])
    && (key in iteratorsInList ==> iteratorsInList[key] == Under(nodes, key))
    && (key in orderedKeys ==> orderedKeys[key] == Positions(Under(nodes, key)))
  }

  lemma {:induction false} UnderAppend<K, V>(a: seq<FifoNode<K, V>>, b: seq<FifoNode<K, V>>, key: K)
    ensures Under(a + b, key) == Under(a, key) + Under(b, key)
  {
    if a == [] {
      assert a + b == b;
    } else {
      assert (a + b)[1..] == a[1..] + b;
      UnderAppend(a[1..], b, key);
    }
  }

  /** Erasing the first node of a key changes the nodes of that key only. */
  lemma {:induction false} UnderErased<K, V>(nodes: seq<FifoNode<K, V>>, key: K, other: K)
    requires Under(nodes, key) != []
    ensures var left := Without(nodes, Under(nodes, key)[0]);
      && Under(left, other) == (if other == key then Under(nodes, key)[1..] else Under(nodes, other))
      && |left| == |nodes| - 1 && forall n :: n in left ==> n in nodes
  {
    if nodes[0].key != key {
      assert Under(nodes, key)[0] in Under(nodes, key);
      UnderErased(nodes[1..], key, other);
      var left := Without(nodes[1..], Under(nodes[1..], key)[0]);
      assert ([nodes[0]] + left)[1..] == left;
    }
  }

  lemma {:induction false} SeparateErased<K, V>(nodes: seq<FifoNode<K, V>>, n: FifoNode<K, V>)
    requires Separate(nodes)
    ensures Separate(Without(nodes, n)) && forall m :: m in Without(nodes, n) ==> m in nodes
  {
    if nodes != [] && nodes[0] != n {
      assert Separate(nodes[1..]);
      SeparateErased(nodes[1..], n);
      var rest := Without(nodes[1..], n);
      forall j | 0 <= j < |rest| ensures nodes[0] != rest[j] && nodes[0].node != rest[j].node {
        assert rest[j] in rest;
      }
    }
  }

  /** Erasing the first node of a key pops the pair under that key. */
  lemma {:induction false} PairsErased<K, V>(nodes: seq<FifoNode<K, V>>, key: K)
    requires Under(nodes, key) != []
    ensures PairsOf(Without(nodes, Under(nodes, key)[0])) == PopUnder(PairsOf(nodes), key)
  {
    if nodes[0].key != key {
      assert Under(nodes, key)[0] in Under(nodes, key);
      PairsErased(nodes[1..], key);
      var left := Without(nodes[1..], Under(nodes[1..], key)[0]);
      assert ([nodes[0]] + left)[1..] == left;
    }
  }

  lemma {:induction false} ValuesOfNodes<K, V>(nodes: seq<FifoNode<K, V>>, key: K)
    ensures |ValuesUnder(PairsOf(nodes), key)| == |Under(nodes, key)|
    ensures forall i :: 0 <= i < |Under(nodes, key)| ==>
      ValuesUnder(PairsOf(nodes), key)[i] == Under(nodes, key)[i].node.value
  {
    hide ValuesUnder;
    ValuesNone<K, V>(key);
    if nodes != [] {
      ValuesOfNodes(nodes[1..], key);
      var head, rest := (nodes[0].key, nodes[0].node.value), PairsOf(nodes[1..]);
      ValuesStep(head, rest, key);
      var u := Under(nodes[1..], key);
      assert Under(nodes, key) == (if nodes[0].key == key then [nodes[0]] else []) + u;
      assert [] + u == u && [] + ValuesUnder(rest, key) == ValuesUnder(rest, key);
    }
  }

  lemma UnderFirst<K, V>(nodes: seq<FifoNode<K, V>>)
    requires nodes != []
    ensures Under(nodes, nodes[0].key) != [] && Under(nodes, nodes[0].key)[0] == nodes[0]
    ensures Without(nodes, nodes[0]) == nodes[1..]
  {
  }

  /** When only the first node of a key holds another value than before, only that pair is
      different. */
  lemma {:induction false} PairsSet<K, V>(nodes: seq<FifoNode<K, V>>, key: K, before: seq<(K, V)>)
    requires Separate(nodes) && Under(nodes, key) != [] && |before| == |nodes|
    requires forall i :: 0 <= i < |nodes| ==> before[i].0 == nodes[i].key
    requires forall i :: 0 <= i < |nodes| && nodes[i] != Under(nodes, key)[0] ==> before[i].1 == nodes[i].node.value
    ensures PairsOf(nodes) == SetUnder(before, key, Under(nodes, key)[0].node.value)
  {
    if nodes[0].key != key {
      assert Separate(nodes[1..]);
      assert Under(nodes, key)[0] in Under(nodes, key);
      PairsSet(nodes[1..], key, before[1..]);
    } else {
      assert PairsOf(nodes)[1..] == before[1..];
    }
  }

  function Listed<K, T>(lists: map<K, seq<T>>, key: K): seq<T> {
    if key in lists then lists[key] else []
  }

  lemma NothingAgrees<K, V>(key: K)
    ensures Agrees<K, V>([], map[], map[], key)
  {
  }

  lemma PrependAgrees<K, V>(nodes: seq<FifoNode<K, V>>, orderedKeys: map<K, seq<ValueNode<V>>>,
                            iteratorsInList: map<K, seq<FifoNode<K, V>>>, entry: FifoNode<K, V>, key: K)
    requires Agrees(nodes, orderedKeys, iteratorsInList, key)
    requires Agrees(nodes, orderedKeys, iteratorsInList, entry.key)
    ensures Agrees([entry] + nodes, orderedKeys[entry.key := [entry.node] + Listed(orderedKeys, entry.key)],
                   iteratorsInList[entry.key := [entry] + Listed(iteratorsInList, entry.key)], key)
  {
    hide Under;
    UnderAppend([entry], nodes, key);
    UnderOne(entry, key);
  }

  lemma AppendAgrees<K, V>(nodes: seq<FifoNode<K, V>>, orderedKeys: map<K, seq<ValueNode<V>>>,
                           iteratorsInList: map<K, seq<FifoNode<K, V>>>, entry: FifoNode<K, V>, key: K)
    requires Agrees(nodes, orderedKeys, iteratorsInList, key)
    requires Agrees(nodes, orderedKeys, iteratorsInList, entry.key)
    ensures Agrees(nodes + [entry], orderedKeys[entry.key := Listed(orderedKeys, entry.key) + [entry.node]],
                   iteratorsInList[entry.key := Listed(iteratorsInList, entry.key) + [entry]], key)
  {
    hide Under;
    UnderAppend(nodes, [entry], key);
    UnderOne(entry, key);
  }

  class Data<K(==, !new), V> {
    var orderedKeys: map<K, seq<ValueNode<V>>>
    var fifoList: seq<FifoNode<K, V>>
    var iteratorsInList: map<K, seq<FifoNode<K, V>>>

    ghost predicate Valid()
      reads this
    {
      && Separate(fifoList)
      && forall key :: Agrees(fifoList, orderedKeys, iteratorsInList, key)
    }

    /** The pairs on the stack, most recent first. */
    function Contents(): seq<(K, V)>
      reads this, NodeSet(fifoList)
    {
      PairsOf(fifoList)
    }

    constructor ()
      ensures Valid() && Contents() == []
    {
      orderedKeys, fifoList, iteratorsInList := map[], [], map[];
    }

    /** Rebuilds the stack of another object out of nodes of its own. */
    constructor Copy(other: Data<K, V>)
      requires other.Valid()
      ensures Valid() && Contents() == other.Contents()
      ensures forall n :: n in fifoList ==> fresh(n) && fresh(n.node)
    {
      orderedKeys, fifoList, iteratorsInList := map[], [], map[];
      new;
      hide Agrees, PairsOf;
      forall k ensures Agrees(fifoList, orderedKeys, iteratorsInList, k) { NothingAgrees<K, V>(k); }
      for i := 0 to |other.fifoList|
        invariant Valid() && |fifoList| == i
        invariant forall n :: n in fifoList ==> fresh(n) && fresh(n.node)
        invariant forall j :: 0 <= j < i ==> PairsOf(fifoList)[j] == PairsOf(other.fifoList)[j]
      {
        PushBack(other.fifoList[i].key, other.fifoList[i].node.value);
      }
    }

    /** One turn of the copying loop: the pair goes to the end of every list. */
    method PushBack(key: K, value: V)
      requires Valid()
      modifies this
      ensures Valid() && Contents() == old(Contents()) + [(key, value)]
      ensures |fifoList| == |old(fifoList)| + 1 && fifoList[..|old(fifoList)|] == old(fifoList)
      ensures fresh(fifoList[|old(fifoList)|]) && fresh(fifoList[|old(fifoList)|].node)
    {
      hide Under, Agrees;
      ghost var was := fifoList;
      if key !in orderedKeys { orderedKeys := orderedKeys[key := []]; }
      var node := new ValueNode(value);
      orderedKeys := orderedKeys[key := orderedKeys[key] + [node]];
      var entry := new FifoNode(key, node);
      fifoList := fifoList + [entry];
      iteratorsInList := iteratorsInList[key :=
        (if key in iteratorsInList then iteratorsInList[key] else []) + [entry]];
      assert orderedKeys == old(orderedKeys)[key := Listed(old(orderedKeys), key) + [node]];
      forall k ensures Agrees(fifoList, orderedKeys, iteratorsInList, k) {
        AppendAgrees(was, old(orderedKeys), old(iteratorsInList), entry, k);
      }
    }

    method Push(key: K, value: V)
      requires Valid()
      modifies this
      ensures Valid() && Contents() == [(key, value)] + old(Contents())
      ensures fresh(NodeSet(fifoList) - old(NodeSet(fifoList)))
    {
      hide Under, Agrees;
      ghost var was := fifoList;
      if key !in orderedKeys { orderedKeys := orderedKeys[key := []]; }
      var node := new ValueNode(value);
      orderedKeys := orderedKeys[key := [node] + orderedKeys[key]];
      var entry := new FifoNode(key, orderedKeys[key][0]);
      fifoList := [entry] + fifoList;
      iteratorsInList := iteratorsInList[key :=
        [entry] + if key in iteratorsInList then iteratorsInList[key] else []];
      assert orderedKeys == old(orderedKeys)[key := [node] + Listed(old(orderedKeys), key)];
      forall k ensures Agrees(fifoList, orderedKeys, iteratorsInList, k) {
        PrependAgrees(was, old(orderedKeys), old(iteratorsInList), entry, k);
      }
      assert fifoList[1..] == was;
    }

    /** Takes the most recent pair away. */
    method Pop() returns (r: Outcome)
      requires Valid()
      modifies this
      ensures Valid()
      ensures r == if old(Contents()) == [] then Failed(StackIsEmpty) else Done
      ensures Contents() == if old(Contents()) == [] then [] else old(Contents())[1..]
    {
      hide Under, Without;
      if fifoList == [] { return Failed(StackIsEmpty); }
      ghost var was := fifoList;
      var first := fifoList[0];
      UnderFirst(fifoList);
      assert Agrees(was, orderedKeys, iteratorsInList, first.key);
      iteratorsInList := iteratorsInList[first.key := iteratorsInList[first.key][1..]];
      if iteratorsInList[first.key] == [] { iteratorsInList := iteratorsInList - {first.key}; }
      WithoutHead(orderedKeys[first.key]);
      orderedKeys := orderedKeys[first.key := Without(orderedKeys[first.key], first.node)];
      if orderedKeys[first.key] == [] { orderedKeys := orderedKeys - {first.key}; }
      fifoList := fifoList[1..];
      SeparateErased(was, first);
      forall k ensures Agrees(fifoList, orderedKeys, iteratorsInList, k) {
        assert Agrees(was, old(orderedKeys), old(iteratorsInList), k);
        UnderErased(was, first.key, k);
        PositionsTail(Under(was, first.key));
      }
      return Done;
    }

    /** Takes the most recent pair under the key away. */
    method PopKey(key: K) returns (r: Outcome)
      requires Valid()
      modifies this
      ensures Valid()
      ensures r == if old(Contents()) == [] then Failed(StackIsEmpty)
                   else if old(ValuesUnder(Contents(), key)) == [] then Failed(InvalidArgument) else Done
      ensures Contents() == if r.Done? then PopUnder(old(Contents()), key) else old(Contents())
    {
      hide Under, Without, ValuesUnder, PopUnder, Positions;
      ValuesOfNodes(fifoList, key);
      assert Agrees(fifoList, orderedKeys, iteratorsInList, key);
      if fifoList == [] { return Failed(StackIsEmpty); }
      if key !in orderedKeys { return Failed(InvalidArgument); }
      ghost var was := fifoList;
      fifoList := Without(fifoList, iteratorsInList[key][0]);
      iteratorsInList := iteratorsInList[key := iteratorsInList[key][1..]];
      if iteratorsInList[key] == [] { iteratorsInList := iteratorsInList - {key}; }
      orderedKeys := orderedKeys[key := orderedKeys[key][1..]];
      if orderedKeys[key] == [] { orderedKeys := orderedKeys - {key}; }
      SeparateErased(was, Under(was, key)[0]);
      forall k ensures Agrees(fifoList, orderedKeys, iteratorsInList, k) {
        assert Agrees(was, old(orderedKeys), old(iteratorsInList), k);
        UnderErased(was, key, k);
        PositionsTail(Under(was, key));
      }
      PairsErased(was, key);
      assert PairsOf(was) == old(PairsOf(fifoList));
      return Done;
    }

    method Front() returns (r: Result<FifoNode<K, V>>)
      requires Valid()
      ensures if Contents() == [] then r == Err(StackIsEmpty)
              else r.Ok? && r.value == fifoList[0] && (r.value.key, r.value.node.value) == Contents()[0]
    {
      if fifoList == [] { return Err(StackIsEmpty); }
      return Ok(fifoList[0]);
    }

    /** The node of the most recent value under the key. */
    method FrontKey(key: K) returns (r: Result<ValueNode<V>>)
      requires Valid()
      ensures if ValuesUnder(Contents(), key) == [] then r == Err(InvalidArgument)
              else && r.Ok? && r.value.value == ValuesUnder(Contents(), key)[0]
                   && Under(fifoList, key) != [] && r.value == Under(fifoList, key)[0].node
    {
      ValuesOfNodes(fifoList, key);
      assert Agrees(fifoList, orderedKeys, iteratorsInList, key);
      if key !in orderedKeys { return Err(InvalidArgument); }
      return Ok(orderedKeys[key][0]);
    }

    /** A caller writes through the reference that `front` gave for the key. */
    method SetFrontKey(key: K, value: V) returns (r: Outcome)
      requires Valid()
      modifies NodeSet(fifoList)
      ensures Valid() && r == if old(ValuesUnder(Contents(), key)) == [] then Failed(InvalidArgument) else Done
      ensures Contents() == if r.Done? then SetUnder(old(Contents()), key, value) else old(Contents())
    {
      hide ValuesUnder, Under, SetUnder;
      var front := FrontKey(key);
      if front.Err? { return Failed(InvalidArgument); }
      ghost var first := Under(fifoList, key)[0];
      assert first in Under(fifoList, key);
      front.value.value := value;
      SeparateNodes(fifoList);
      PairsSet(fifoList, key, old(Contents()));
      return Done;
    }

    method Size() returns (n: nat)
      requires Valid()
      ensures n == |Contents()|
    {
      return |fifoList|;
    }

    method Count(key: K) returns (n: nat)
      requires Valid()
      ensures n == |ValuesUnder(Contents(), key)|
    {
      ValuesOfNodes(fifoList, key);
      assert Agrees(fifoList, orderedKeys, iteratorsInList, key);
      if key !in orderedKeys { return 0; }
      return |orderedKeys[key]|;
    }

    method Clear()
      modifies this
      ensures Valid() && Contents() == []
    {
      orderedKeys, fifoList, iteratorsInList := map[], [], map[];
    }
  }

  lemma UnderOne<K, V>(n: FifoNode<K, V>, key: K)
    ensures Under([n], key) == if n.key == key then [n] else []
  {
    assert [n][1..] == [];
  }

  lemma WithoutHead<N>(nodes: seq<N>)
    requires nodes != []
    ensures Without(nodes, nodes[0]) == nodes[1..]
  {
  }

  lemma PositionsTail<K, V>(nodes: seq<FifoNode<K, V>>)
    requires nodes != []
    ensures Positions(nodes)[1..] == Positions(nodes[1..])
  {
  }

  lemma SeparateNodes<K, V>(nodes: seq<FifoNode<K, V>>)
    requires Separate(nodes)
    ensures forall m, n :: m in nodes && n in nodes && m != n ==> m.node != n.node
  {
  }
}
