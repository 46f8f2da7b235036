/** Which roots may follow each other. Two collective calls use the channel of a parent and a
    side for the children of two different trees; nobody takes the packet of the other call as
    long as some rank is below both of those children. This file turns that into arithmetic on
    the distance of the two roots. */
module CollectiveRoots {
  import opened CollectiveTree

  predicate ChildAlive(rank: nat, first: bool, root: nat, size: nat)
    requires root < size
  {
    if first then Child1Alive(rank, root, size) else Child2Alive(rank, root, size)
  }

  function Child(rank: nat, first: bool, root: nat, size: nat): int
    requires root < size
  {
    if first then Child1(rank, root, size) else Child2(rank, root, size)
  }

  /** Some rank is below the child on that side in both trees. */
  ghost predicate Meet(p: nat, first: bool, a: nat, b: nat, size: nat)
    requires a < size && b < size
  {
    exists x: nat :: x < size && Below(x, Child(p, first, a, size), a, size) && Below(x, Child(p, first, b, size), b, size)
  }

  predicate Below(x: nat, y: int, root: nat, size: nat)
    requires root < size && x < size
  {
    0 <= y < size && Under(Place(x, root, size), Place(y, root, size))
  }

  /** For every channel that both trees use, some rank is below both of its children. */
  ghost predicate ChannelsMeet(a: nat, b: nat, size: nat)
    requires a < size && b < size
  {
    forall p: nat, first: bool ::
      p < size && ChildAlive(p, first, a, size) && ChildAlive(p, first, b, size) ==> Meet(p, first, a, b, size)
  }

  /** The shorter way round from one root to the other. */
  function Distance(a: nat, b: nat, size: nat): nat
    requires a < size && b < size
  {
    var d := Place(b, a, size);
    if 2 * d <= size then d else size - d
  }

  /** The roots are equal, or no rank is a parent in both trees, or exactly one is, and its
      children in the one tree are below its children in the other. */
  predicate RootsSafe(a: nat, b: nat, size: nat)
    requires a < size && b < size
  {
    var m, d := size / 2, Distance(a, b, size);
    || d == 0
    || d >= m
    || (d == m - 1 && Under(m, 1) && (size % 2 == 1 ==> Under(m + 1, 2)))
  }

  // ----- the two trees seen from one root

  function Side(first: bool): nat { if first then 1 else 2 }

  /** The place from the second root, of the rank in place v from the first. */
  function Shift(v: nat, d: nat, size: nat): nat
    requires v < size && d < size
  {
    if v >= d then v - d else v - d + size
  }

  ghost predicate MeetAt(v: nat, side: nat, d: nat, size: nat)
    requires v < size && d < size
  {
    exists u: nat :: u < size && Under(u, 2 * v + side) && Under(Shift(u, d, size), 2 * Shift(v, d, size) + side)
  }

  lemma ChildPlace(p: nat, first: bool, root: nat, size: nat)
    requires p < size && root < size
    ensures var w := 2 * Place(p, root, size) + Side(first);
      && (ChildAlive(p, first, root, size) <==> w < size)
      && (w < size ==> 0 <= Child(p, first, root, size) < size && Place(Child(p, first, root, size), root, size) == w)
  {
    hide Child1, Child2, Child1Alive, Child2Alive;
    ChildFormulas(p, root, size);
    PlaceRank(root, size);
  }

  lemma ShiftPlace(r: nat, a: nat, b: nat, size: nat)
    requires r < size && a < size && b < size
    ensures Place(r, b, size) == Shift(Place(r, a, size), Place(b, a, size), size)
  {
  }

  lemma MeetMeans(p: nat, first: bool, a: nat, b: nat, size: nat)
    requires p < size && a < size && b < size
    requires ChildAlive(p, first, a, size) && ChildAlive(p, first, b, size)
    ensures Meet(p, first, a, b, size) <==> MeetAt(Place(p, a, size), Side(first), Place(b, a, size), size)
  {
    hide ChildAlive, Child, Place, Under, Shift;
    var v, d, side := Place(p, a, size), Place(b, a, size), Side(first);
    ChildPlace(p, first, a, size);
    ChildPlace(p, first, b, size);
    ShiftPlace(p, a, b, size);
    PlaceRank(a, size);
    if Meet(p, first, a, b, size) {
      var x: nat :| x < size && Below(x, Child(p, first, a, size), a, size) && Below(x, Child(p, first, b, size), b, size);
      ShiftPlace(x, a, b, size);
      assert Under(Place(x, a, size), 2 * v + side);
    }
    if MeetAt(v, side, d, size) {
      var u: nat :| u < size && Under(u, 2 * v + side) && Under(Shift(u, d, size), 2 * Shift(v, d, size) + side);
      var x := RankAt(u, a, size);
      ShiftPlace(x, a, b, size);
      assert Below(x, Child(p, first, a, size), a, size);
    }
  }

  /** A leaf is below the other child or it is not: there is no other rank to look at. */
  lemma LeafMeets(v: nat, side: nat, d: nat, size: nat)
    requires d <= v && 1 <= side <= 2 && 2 * v + side < size <= 2 * (2 * v + side) + 1
    ensures MeetAt(v, side, d, size) <==> Under(2 * v + side - d, 2 * (v - d) + side)
  {
    var w := 2 * v + side;
    assert Shift(w, d, size) == w - d && Shift(v, d, size) == v - d;
    forall u: nat | u < size && Under(u, w) ensures u == w {
      UnderSplit(u, w);
      if Under(u, 2 * w + 1) { UnderOrder(u, 2 * w + 1); }
      if Under(u, 2 * w + 2) { UnderOrder(u, 2 * w + 2); }
    }
    assert Under(w, w);
  }

  /** Neighbouring places have no common place below them. */
  lemma {:induction false} NeighboursApart(u: nat, w: nat)
    requires w >= 1
    ensures !(Under(u, w) && Under(u, w + 1))
  {
    if u <= w {
      NotUnder(u, w + 1);
    } else if u == w + 1 {
      NotUnder((u - 1) / 2, w);
    } else {
      NeighboursApart((u - 1) / 2, w);
    }
  }

  /** Two siblings are not below two neighbours. */
  lemma SiblingsApart(y: nat, w: nat)
    requires 1 <= w < 2 * y + 1
    ensures !(Under(2 * y + 1, w) && Under(2 * y + 2, w + 1))
  {
    NeighboursApart(y, w);
    assert (2 * y + 1 - 1) / 2 == y && (2 * y + 2 - 1) / 2 == y;
  }

  /** Near but different roots: some channel has two leaves that are not below each other. */
  lemma NearFails(d: nat, size: nat) returns (v: nat, side: nat)
    requires 0 < d && d + 2 <= size / 2
    ensures d <= v && 1 <= side <= 2 && 2 * v + side < size && !MeetAt(v, side, d, size)
  {
    hide Under, MeetAt;
    var m := size / 2;
    var y := (2 * m - 4 - d) / 2;
    if d == 2 * (m - 2 - y) {
      v, side := m - 2, 1;
      SiblingsApart(y, 2 * (v - d) + 1);
      LeafMeets(v, 1, d, size);
      LeafMeets(v, 2, d, size);
      if MeetAt(v, 1, d, size) { side := 2; }
    } else {
      v, side := m - 2, 2;
      y := y + 1;
      assert 2 * v + 2 - d == 2 * y + 1;
      SiblingsApart(y, 2 * (v - d) + 2);
      LeafMeets(v, 2, d, size);
      LeafMeets(m - 1, 1, d, size);
      if MeetAt(v, 2, d, size) { v, side := m - 1, 1; }
    }
  }

  /** At most every second rank is a parent, so the common parents are d..m-1 from the first root. */
  lemma CommonParents(v: nat, side: nat, d: nat, size: nat)
    requires v < size && 0 < d && 2 * d <= size && 1 <= side
    ensures 2 * v + side < size && 2 * Shift(v, d, size) + side < size ==> d <= v < size / 2
  {
  }

  /** The condition for roots whose shorter distance is from a to b. */
  lemma OneWay(a: nat, b: nat, size: nat)
    requires a < size && b < size && 2 * Place(b, a, size) <= size
    ensures ChannelsMeet(a, b, size) <==> RootsSafe(a, b, size)
  {
    hide ChildAlive, Child, Meet, MeetAt, Under;
    var m, d := size / 2, Place(b, a, size);
    PlaceRank(a, size);
    forall p: nat, first: bool | p < size && ChildAlive(p, first, a, size) && ChildAlive(p, first, b, size)
      ensures Meet(p, first, a, b, size) <==> MeetAt(Place(p, a, size), Side(first), d, size)
      ensures d == 0 || d <= Place(p, a, size) < m
    {
      MeetMeans(p, first, a, b, size);
      ChildPlace(p, first, a, size);
      ChildPlace(p, first, b, size);
      ShiftPlace(p, a, b, size);
      if d > 0 { CommonParents(Place(p, a, size), Side(first), d, size); }
    }
    if d == 0 {
      SameMeets(a, size);
    } else if d + 1 == m {
      Border(a, b, size);
    } else if d < m {
      var v, side := NearFails(d, size);
      Breaks(a, b, size, v, side);
    }
  }

  lemma UnderSelf(u: nat)
    ensures Under(u, u)
  {
  }

  lemma SameMeets(a: nat, size: nat)
    requires a < size
    ensures ChannelsMeet(a, a, size)
  {
    hide ChildAlive, Child, Under;
    forall p: nat, first: bool | p < size && ChildAlive(p, first, a, size) ensures Meet(p, first, a, a, size) {
      ChildPlace(p, first, a, size);
      var x := Child(p, first, a, size);
      UnderSelf(Place(x, a, size));
      assert Below(x, x, a, size);
    }
  }

  /** A place and a side without a common rank are a channel without one. */
  lemma Breaks(a: nat, b: nat, size: nat, v: nat, side: nat)
    requires a < size && b < size && 1 <= side <= 2
    requires Place(b, a, size) <= v && 2 * v + side < size && !MeetAt(v, side, Place(b, a, size), size)
    ensures !ChannelsMeet(a, b, size)
  {
    hide ChildAlive, Child, Meet, MeetAt, Under;
    PlaceRank(a, size);
    var p, first := RankAt(v, a, size), side == 1;
    ChildPlace(p, first, a, size);
    ChildPlace(p, first, b, size);
    ShiftPlace(p, a, b, size);
    MeetMeans(p, first, a, b, size);
  }

  /** One common parent: the second root, in the last place that has a child. */
  lemma Border(a: nat, b: nat, size: nat)
    requires a < size && b < size && 0 < Place(b, a, size) && Place(b, a, size) + 1 == size / 2
    ensures ChannelsMeet(a, b, size) <==> Under(size / 2, 1) && (size % 2 == 1 ==> Under(size / 2 + 1, 2))
  {
    hide ChildAlive, Child, Meet, MeetAt, Under;
    var d := Place(b, a, size);
    LeafMeets(d, 1, d, size);
    if size % 2 == 1 { LeafMeets(d, 2, d, size); }
    forall p: nat, first: bool | p < size && ChildAlive(p, first, a, size) && ChildAlive(p, first, b, size)
      ensures Meet(p, first, a, b, size) <==> MeetAt(d, Side(first), d, size)
      ensures first || size % 2 == 1
    {
      MeetMeans(p, first, a, b, size);
      ChildPlace(p, first, a, size);
      ChildPlace(p, first, b, size);
      ShiftPlace(p, a, b, size);
      CommonParents(Place(p, a, size), Side(first), d, size);
    }
    if !MeetAt(d, 1, d, size) { Breaks(a, b, size, d, 1); }
    if size % 2 == 1 && !MeetAt(d, 2, d, size) { Breaks(a, b, size, d, 2); }
  }

  lemma MeetTurn(a: nat, b: nat, size: nat)
    requires a < size && b < size
    ensures ChannelsMeet(a, b, size) <==> ChannelsMeet(b, a, size)
  {
    hide ChildAlive, Child, Below;
    forall p: nat, first: bool | p < size ensures Meet(p, first, a, b, size) <==> Meet(p, first, b, a, size) {
    }
  }

  /** Two roots may follow each other on the same channels exactly when the arithmetic says so. */
  lemma RootsSafeMeans(a: nat, b: nat, size: nat)
    requires a < size && b < size
    ensures ChannelsMeet(a, b, size) <==> RootsSafe(a, b, size)
  {
    hide ChannelsMeet, Under;
    if 2 * Place(b, a, size) <= size {
      OneWay(a, b, size);
    } else {
      MeetTurn(a, b, size);
      OneWay(b, a, size);
    }
  }

  /** From four ranks on, a root and the next one do not go together. */
  lemma NextRootUnsafe(a: nat, b: nat, size: nat)
    requires size >= 4 && a < size && b == (a + 1) % size
    ensures !RootsSafe(a, b, size)
  {
    assert Distance(a, b, size) == 1;
    if size / 2 == 2 { NotUnder(0, 1); }
  }
}
