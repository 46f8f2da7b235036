/** The tree of the collective operations: every rank computes its parent and children from
    its own number, the root and the number of ranks, and all of them agree on one binary
    heap over all ranks with the root on top. */
module CollectiveTree {

  // ----- the formulas every rank evaluates

  function Child1(rank: nat, root: nat, size: nat): int
    requires root < size
  {
    if rank >= root then (rank * 2 + 1 - root) % size
    else (size - root + rank) * 2 - (size - root) + 1
  }

  function Child2(rank: nat, root: nat, size: nat): int
    requires root < size
  {
    if rank >= root then (rank * 2 + 2 - root) % size
    else (size - root + rank) * 2 - (size - root) + 2
  }

  function Parent(rank: nat, root: nat, size: nat): int
    requires root < size
  {
    if rank > root then ((rank + root - 1) / 2) % size else ((rank + root + size - 1) / 2) % size
  }

  predicate LeftChild(rank: nat, root: nat, size: nat)
    requires root < size
  {
    if rank > root then (rank - root) % 2 == 1 else ((size - root) + rank) % 2 == 1
  }

  predicate Child1Alive(rank: nat, root: nat, size: nat)
    requires root < size
  {
    var child1 := Child1(rank, root, size);
    && ((rank <= root && child1 < root && child1 > rank)
        || (rank >= root && ((child1 > root && child1 < size && child1 > rank) || child1 < root)))
    && child1 != rank
  }

  predicate Child2Alive(rank: nat, root: nat, size: nat)
    requires root < size
  {
    var child1, child2 := Child1(rank, root, size), Child2(rank, root, size);
    && ((rank <= root && child2 < root && child1 > rank)
        || (rank >= root && ((child2 > root && child2 < size && child2 > rank) || child2 < root)))
    && child2 != rank
  }

  // ----- the heap they describe

  /** The place of a rank in the heap: the root is in place 0. */
  function Place(rank: nat, root: nat, size: nat): nat
    requires rank < size && root < size
  {
    if rank >= root then rank - root else rank - root + size
  }

  function RankAt(place: nat, root: nat, size: nat): nat
    requires place < size && root < size
  {
    if place + root < size then place + root else place + root - size
  }

  lemma PlaceRank(root: nat, size: nat)
    requires root < size
    ensures forall r :: 0 <= r < size ==> Place(r, root, size) < size && RankAt(Place(r, root, size), root, size) == r
    ensures forall v :: 0 <= v < size ==> RankAt(v, root, size) < size && Place(RankAt(v, root, size), root, size) == v
    ensures Place(root, root, size) == 0
  {
  }

  lemma AtLeastTwice(q: int, size: nat)
    ensures q >= 2 ==> q * size >= 2 * size
    ensures q <= 0 ==> q * size <= 0
  {
  }

  lemma ModOnce(x: int, size: nat)
    requires size > 0 && 0 <= x < 2 * size
    ensures x % size == if x < size then x else x - size
  {
    var q := x / size;
    assert x == q * size + x % size;
    AtLeastTwice(q, size);
    AtLeastTwice(-q, size);
  }

  lemma ModTwice(x: int, size: nat)
    requires size > 0 && x == 2 * size
    ensures x % size == 0
  {
    ModOnce(size, size);
    assert x % size == (x - size) % size;
  }

  lemma Child1Value(rank: nat, root: nat, size: nat)
    requires rank < size && root < size
    ensures var x := root + 2 * Place(rank, root, size) + 1;
      Child1(rank, root, size) == if x < size then x else x - size
  {
    if rank >= root { ModOnce(rank * 2 + 1 - root, size); }
  }

  lemma Child2Value(rank: nat, root: nat, size: nat)
    requires rank < size && root < size
    ensures var x := root + 2 * Place(rank, root, size) + 2;
      Child2(rank, root, size) == if x < size then x else if x < 2 * size || rank < root then x - size else 0
  {
    if rank >= root {
      var x := rank * 2 + 2 - root;
      if x < 2 * size { ModOnce(x, size); } else { ModTwice(x, size); }
    }
  }

  lemma Child1Formula(rank: nat, root: nat, size: nat)
    requires rank < size && root < size
    ensures var v := Place(rank, root, size);
      && (Child1Alive(rank, root, size) <==> 2 * v + 1 < size)
      && (2 * v + 1 < size ==> Child1(rank, root, size) == RankAt(2 * v + 1, root, size))
  {
    hide Child1;
    Child1Value(rank, root, size);
  }

  lemma Child2Formula(rank: nat, root: nat, size: nat)
    requires rank < size && root < size
    ensures var v := Place(rank, root, size);
      && (Child2Alive(rank, root, size) <==> 2 * v + 2 < size)
      && (2 * v + 2 < size ==> Child2(rank, root, size) == RankAt(2 * v + 2, root, size))
  {
    hide Child1, Child2;
    Child1Value(rank, root, size);
    Child2Value(rank, root, size);
  }

  /** The child formulas are those of the heap, and a child is there exactly when its place
      is below the number of ranks. */
  lemma ChildFormulas(rank: nat, root: nat, size: nat)
    requires rank < size && root < size
    ensures var v := Place(rank, root, size);
      && (Child1Alive(rank, root, size) <==> 2 * v + 1 < size)
      && (Child2Alive(rank, root, size) <==> 2 * v + 2 < size)
      && (2 * v + 1 < size ==> Child1(rank, root, size) == RankAt(2 * v + 1, root, size))
      && (2 * v + 2 < size ==> Child2(rank, root, size) == RankAt(2 * v + 2, root, size))
  {
    hide Child1, Child2, Child1Alive, Child2Alive;
    Child1Formula(rank, root, size);
    Child2Formula(rank, root, size);
  }

  /** The parent formula and the side agree with the heap. */
  lemma ParentFormulas(rank: nat, root: nat, size: nat)
    requires rank < size && root < size && rank != root
    ensures var v := Place(rank, root, size);
      && v > 0 && Parent(rank, root, size) == RankAt((v - 1) / 2, root, size)
      && (LeftChild(rank, root, size) <==> v % 2 == 1)
  {
    var v := Place(rank, root, size);
    var x := root + (v - 1) / 2;
    if rank > root {
      assert (rank + root - 1) / 2 == x;
    } else {
      assert (rank + root + size - 1) / 2 == x;
    }
    ModOnce(x, size);
  }

  lemma FirstChildAgrees(rank: nat, root: nat, size: nat)
    requires rank < size && root < size && Child1Alive(rank, root, size)
    ensures var c := Child1(rank, root, size);
      0 <= c < size && c != root && Parent(c, root, size) == rank && LeftChild(c, root, size)
  {
    hide Child1, Child2, Child1Alive, Child2Alive, Parent, LeftChild;
    PlaceRank(root, size);
    ChildFormulas(rank, root, size);
    ParentFormulas(Child1(rank, root, size), root, size);
  }

  lemma SecondChildAgrees(rank: nat, root: nat, size: nat)
    requires rank < size && root < size && Child2Alive(rank, root, size)
    ensures var c := Child2(rank, root, size);
      0 <= c < size && c != root && Parent(c, root, size) == rank && !LeftChild(c, root, size)
  {
    hide Child1, Child2, Child1Alive, Child2Alive, Parent, LeftChild;
    PlaceRank(root, size);
    ChildFormulas(rank, root, size);
    ParentFormulas(Child2(rank, root, size), root, size);
  }

  lemma ParentAgrees(rank: nat, root: nat, size: nat)
    requires rank < size && root < size && rank != root
    ensures var p := Parent(rank, root, size);
      && 0 <= p < size && p != rank
      && (if LeftChild(rank, root, size) then Child1Alive(p, root, size) && Child1(p, root, size) == rank
          else Child2Alive(p, root, size) && Child2(p, root, size) == rank)
  {
    hide Child1, Child2, Child1Alive, Child2Alive, Parent, LeftChild;
    PlaceRank(root, size);
    ParentFormulas(rank, root, size);
    ChildFormulas(Parent(rank, root, size), root, size);
  }

  /** Parent and children are inverse to each other, on the same side. */
  lemma FamilyAgrees(rank: nat, root: nat, size: nat)
    requires rank < size && root < size
    ensures Child1Alive(rank, root, size) ==>
      var c := Child1(rank, root, size);
      0 <= c < size && c != root && Parent(c, root, size) == rank && LeftChild(c, root, size)
    ensures Child2Alive(rank, root, size) ==>
      var c := Child2(rank, root, size);
      0 <= c < size && c != root && Parent(c, root, size) == rank && !LeftChild(c, root, size)
    ensures rank != root ==>
      var p := Parent(rank, root, size);
      && 0 <= p < size && p != rank
      && (if LeftChild(rank, root, size) then Child1Alive(p, root, size) && Child1(p, root, size) == rank
          else Child2Alive(p, root, size) && Child2(p, root, size) == rank)
  {
    hide Child1, Child2, Child1Alive, Child2Alive, Parent, LeftChild;
    if Child1Alive(rank, root, size) { FirstChildAgrees(rank, root, size); }
    if Child2Alive(rank, root, size) { SecondChildAgrees(rank, root, size); }
    if rank != root { ParentAgrees(rank, root, size); }
  }

  /** The barrier's own formulas are those of the tree with root 0. */
  lemma BarrierFormulas(rank: nat, size: nat)
    requires rank < size
    ensures Child1Alive(rank, 0, size) <==> rank * 2 + 1 < size
    ensures Child2Alive(rank, 0, size) <==> rank * 2 + 2 < size
    ensures rank * 2 + 1 < size ==> Child1(rank, 0, size) == rank * 2 + 1
    ensures rank * 2 + 2 < size ==> Child2(rank, 0, size) == rank * 2 + 2
    ensures rank != 0 ==> Parent(rank, 0, size) == (rank - 1) / 2 && (LeftChild(rank, 0, size) <==> rank % 2 != 0)
  {
    ChildFormulas(rank, 0, size);
    if rank != 0 { ParentFormulas(rank, 0, size); }
  }

  // ----- subtrees

  /** Place u is in the subtree of place v. */
  predicate Under(u: nat, v: nat) {
    u == v || (u > 0 && Under((u - 1) / 2, v))
  }

  lemma {:induction false} UnderOrder(u: nat, v: nat)
    requires Under(u, v)
    ensures u >= v
  {
    if u != v { UnderOrder((u - 1) / 2, v); }
  }

  lemma {:induction false} NotUnder(u: nat, v: nat)
    requires u < v
    ensures !Under(u, v)
  {
    if u > 0 { NotUnder((u - 1) / 2, v); }
  }

  lemma {:induction false} UnderRoot(u: nat)
    ensures Under(u, 0)
  {
    if u > 0 { UnderRoot((u - 1) / 2); }
  }

  lemma {:induction false} UnderSplit(u: nat, v: nat)
    ensures Under(u, v) <==> u == v || Under(u, 2 * v + 1) || Under(u, 2 * v + 2)
    ensures !(Under(u, 2 * v + 1) && Under(u, 2 * v + 2))
    ensures !Under(v, 2 * v + 1) && !Under(v, 2 * v + 2)
  {
    NotUnder(v, 2 * v + 1);
    NotUnder(v, 2 * v + 2);
    if u < 2 * v + 1 { NotUnder(u, 2 * v + 1); }
    if u < 2 * v + 2 { NotUnder(u, 2 * v + 2); }
    if u > 0 {
      UnderSplit((u - 1) / 2, v);
      if u == 2 * v + 2 { NotUnder((u - 1) / 2, 2 * v + 1); }
    }
  }

  lemma SamePlace(x: nat, y: nat, root: nat, size: nat)
    requires x < size && y < size && root < size
    ensures Place(x, root, size) == Place(y, root, size) <==> x == y
  {
  }

  lemma RootPlace(root: nat, size: nat)
    requires root < size
    ensures Place(root, root, size) == 0
  {
  }

  lemma NotAbove(u: nat, v: nat)
    requires Under(u, v) && u != v
    ensures u > 0 && Under((u - 1) / 2, v)
  {
  }

  lemma {:induction false} UnderUnder(u: nat, v: nat, w: nat)
    requires Under(u, v) && Under(v, w)
    ensures Under(u, w)
  {
    if u != v { UnderUnder((u - 1) / 2, v, w); }
  }

  lemma UnderParent(u: nat, v: nat)
    ensures u > 0 && Under((u - 1) / 2, v) ==> Under(u, v)
  {
  }

  /** The ranks in the subtree of a rank. */
  ghost function Subtree(rank: nat, root: nat, size: nat): set<nat>
    requires rank < size && root < size
  {
    set q: nat | q < size && Under(Place(q, root, size), Place(rank, root, size))
  }

  ghost function FirstSubtree(rank: nat, root: nat, size: nat): set<nat>
    requires rank < size && root < size
  {
    FamilyAgrees(rank, root, size);
    if Child1Alive(rank, root, size) then Subtree(Child1(rank, root, size), root, size) else {}
  }

  ghost function SecondSubtree(rank: nat, root: nat, size: nat): set<nat>
    requires rank < size && root < size
  {
    FamilyAgrees(rank, root, size);
    if Child2Alive(rank, root, size) then Subtree(Child2(rank, root, size), root, size) else {}
  }

  lemma SubtreeRange(rank: nat, root: nat, size: nat, q: nat)
    requires rank < size && root < size && q >= size
    ensures q !in Subtree(rank, root, size) && q !in FirstSubtree(rank, root, size) && q !in SecondSubtree(rank, root, size)
  {
  }

  /** The subtrees of the children are those of the two places below. */
  lemma ChildMembers(rank: nat, root: nat, size: nat, q: nat)
    requires rank < size && root < size && q < size
    ensures var u, v := Place(q, root, size), Place(rank, root, size);
      && (q in FirstSubtree(rank, root, size) <==> Under(u, 2 * v + 1))
      && (q in SecondSubtree(rank, root, size) <==> Under(u, 2 * v + 2))
  {
    hide Child1, Child2, Child1Alive, Child2Alive, Parent, LeftChild, Under;
    var u, v := Place(q, root, size), Place(rank, root, size);
    PlaceRank(root, size);
    ChildFormulas(rank, root, size);
    FamilyAgrees(rank, root, size);
    if Under(u, 2 * v + 1) { UnderOrder(u, 2 * v + 1); }
    if Under(u, 2 * v + 2) { UnderOrder(u, 2 * v + 2); }
  }

  /** A subtree is its top and, disjointly, the subtrees of the children; the root's is everything. */
  lemma SubtreeSplit(rank: nat, root: nat, size: nat)
    requires rank < size && root < size
    ensures var f, s := FirstSubtree(rank, root, size), SecondSubtree(rank, root, size);
      && Subtree(rank, root, size) == {rank} + f + s
      && rank !in f && rank !in s && f !! s
    ensures forall q: nat :: q in Subtree(root, root, size) <==> q < size
  {
    hide Place, Under, FirstSubtree, SecondSubtree;
    var v := Place(rank, root, size);
    var f, s := FirstSubtree(rank, root, size), SecondSubtree(rank, root, size);
    forall q: nat
      ensures q in Subtree(rank, root, size) <==> q == rank || q in f || q in s
      ensures !(q in f && q in s) && (q in f || q in s ==> q < size)
    {
      if q < size {
        ChildMembers(rank, root, size, q);
        UnderSplit(Place(q, root, size), v);
        SamePlace(q, rank, root, size);
      } else {
        SubtreeRange(rank, root, size, q);
      }
    }
    ChildMembers(rank, root, size, rank);
    UnderSplit(v, v);
    RootPlace(root, size);
    forall q: nat | q < size ensures q in Subtree(root, root, size) {
      UnderRoot(Place(q, root, size));
    }
  }
}
