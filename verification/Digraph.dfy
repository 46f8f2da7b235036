/** Finite directed graphs and the order they stand for. The nodes are the keys; `g[a]`
    holds the direct successors of `a`. */
module Digraph {

  type Graph<T> = map<T, set<T>>

  /** Every edge leads to an element of the graph. */
  ghost predicate Closed<T(!new)>(g: Graph<T>) {
    forall a :: a in g ==> g[a] <= g.Keys
  }

  ghost predicate Edge<T(!new)>(g: Graph<T>, a: T, b: T) {
    a in g && b in g[a]
  }

  ghost predicate Path<T(!new)>(g: Graph<T>, p: seq<T>, a: T, b: T) {
    && |p| > 0 && p[0] == a && p[|p| - 1] == b && b in g
    && forall i {:trigger p[i]} :: 0 <= i < |p| - 1 ==> Edge(g, p[i], p[i + 1])
  }

  /** The order the edges stand for: their reflexive and transitive closure. */
  ghost predicate Leq<T(!new)>(g: Graph<T>, a: T, b: T) {
    exists p :: Path(g, p, a, b)
  }

  ghost predicate Acyclic<T(!new)>(g: Graph<T>) {
    forall a, b :: Edge(g, a, b) ==> !Leq(g, b, a)
  }

  ghost predicate WellFormed<T(!new)>(g: Graph<T>) { Closed(g) && Acyclic(g) }

  ghost predicate Lt<T(!new)>(g: Graph<T>, a: T, b: T) { a != b && Leq(g, a, b) }

  /** b is an immediate successor of a in the order. */
  ghost predicate Covers<T(!new)>(g: Graph<T>, a: T, b: T) {
    Lt(g, a, b) && !exists c :: Lt(g, a, c) && Lt(g, c, b)
  }

  // ----- the closure

  lemma LeqRefl<T(!new)>(g: Graph<T>, a: T)
    requires a in g
    ensures Leq(g, a, a)
  {
    assert Path(g, [a], a, a);
  }

  lemma LeqCons<T(!new)>(g: Graph<T>, a: T, b: T, c: T)
    requires Edge(g, a, b) && Leq(g, b, c)
    ensures Leq(g, a, c)
  {
    var p :| Path(g, p, b, c);
    var q := [a] + p;
    forall i | 0 <= i < |q| - 1 ensures Edge(g, q[i], q[i + 1]) {
      if i > 0 { assert q[i] == p[i - 1]; }
    }
    assert Path(g, q, a, c);
  }

  lemma LeqEdge<T(!new)>(g: Graph<T>, a: T, b: T)
    requires Edge(g, a, b) && b in g
    ensures Leq(g, a, b)
  {
    LeqRefl(g, b);
    LeqCons(g, a, b, b);
  }

  /** The first edge of a path between different elements. */
  lemma LeqFirst<T(!new)>(g: Graph<T>, a: T, b: T) returns (c: T)
    requires Leq(g, a, b) && a != b
    ensures Edge(g, a, c) && Leq(g, c, b)
  {
    var p :| Path(g, p, a, b);
    c := p[1];
    PathTail(g, p, a, b);
  }

  lemma PathTail<T(!new)>(g: Graph<T>, p: seq<T>, a: T, b: T)
    requires Path(g, p, a, b) && |p| > 1
    ensures Edge(g, a, p[1]) && Path(g, p[1..], p[1], b)
  {
    assert Edge(g, p[0], p[1]);
    forall i | 0 <= i < |p[1..]| - 1 ensures Edge(g, p[1..][i], p[1..][i + 1]) {
      assert Edge(g, p[i + 1], p[i + 2]);
    }
  }

  lemma LeqTrans<T(!new)>(g: Graph<T>, a: T, b: T, c: T)
    requires Leq(g, a, b) && Leq(g, b, c)
    ensures Leq(g, a, c)
  {
    var p :| Path(g, p, a, b);
    LeqTransPath(g, p, a, b, c);
  }

  lemma {:induction false} LeqTransPath<T(!new)>(g: Graph<T>, p: seq<T>, a: T, b: T, c: T)
    requires Path(g, p, a, b) && Leq(g, b, c)
    ensures Leq(g, a, c)
    decreases |p|
  {
    if |p| > 1 {
      PathTail(g, p, a, b);
      LeqTransPath(g, p[1..], p[1], b, c);
      LeqCons(g, a, p[1], c);
    }
  }

  /** The last edge of a path between different elements. */
  lemma LeqLast<T(!new)>(g: Graph<T>, a: T, b: T) returns (c: T)
    requires Leq(g, a, b) && a != b && Closed(g)
    ensures Leq(g, a, c) && Edge(g, c, b)
  {
    var p :| Path(g, p, a, b);
    c := p[|p| - 2];
    assert Edge(g, c, p[|p| - 1]);
    assert Path(g, p[..|p| - 1], a, c);
  }

  lemma LeqDomain<T(!new)>(g: Graph<T>, a: T, b: T)
    requires Leq(g, a, b)
    ensures a in g && b in g
  {
    var p :| Path(g, p, a, b);
    if |p| > 1 { assert Edge(g, p[0], p[1]); }
  }

  lemma LeqAntisym<T(!new)>(g: Graph<T>, a: T, b: T)
    requires Acyclic(g) && Leq(g, a, b) && Leq(g, b, a)
    ensures a == b
  {
    if a != b {
      var c := LeqFirst(g, a, b);
      LeqTrans(g, c, b, a);
    }
  }

  /** The order of a well-formed graph is a partial order on its elements. */
  lemma PartialOrder<T(!new)>(g: Graph<T>)
    requires WellFormed(g)
    ensures forall a :: a in g <==> Leq(g, a, a)
    ensures forall a, b :: Leq(g, a, b) && Leq(g, b, a) ==> a == b
    ensures forall a, b, c :: Leq(g, a, b) && Leq(g, b, c) ==> Leq(g, a, c)
  {
    forall a ensures a in g <==> Leq(g, a, a) {
      if a in g { LeqRefl(g, a); }
      if Leq(g, a, a) { LeqDomain(g, a, a); }
    }
    forall a, b | Leq(g, a, b) && Leq(g, b, a) ensures a == b { LeqAntisym(g, a, b); }
    forall a, b, c | Leq(g, a, b) && Leq(g, b, c) ensures Leq(g, a, c) { LeqTrans(g, a, b, c); }
  }

  /** If every edge of h is a relation of g between different elements, h's order is part of g's. */
  lemma {:induction false} LeqInto<T(!new)>(h: Graph<T>, g: Graph<T>, p: seq<T>, a: T, b: T)
    requires forall x, y :: Edge(h, x, y) ==> Leq(g, x, y)
    requires h.Keys <= g.Keys
    requires Path(h, p, a, b)
    ensures Leq(g, a, b)
    decreases |p|
  {
    if |p| == 1 {
      LeqRefl(g, a);
    } else {
      PathTail(h, p, a, b);
      LeqInto(h, g, p[1..], p[1], b);
      LeqTrans(g, a, p[1], b);
    }
  }

  lemma LeqSubset<T(!new)>(h: Graph<T>, g: Graph<T>, a: T, b: T)
    requires forall x, y :: Edge(h, x, y) ==> Leq(g, x, y)
    requires h.Keys <= g.Keys && Leq(h, a, b)
    ensures Leq(g, a, b)
  {
    var p :| Path(h, p, a, b);
    LeqInto(h, g, p, a, b);
  }

  lemma AcyclicSubset<T(!new)>(h: Graph<T>, g: Graph<T>)
    requires Acyclic(g) && h.Keys <= g.Keys
    requires forall x, y :: Edge(h, x, y) ==> Leq(g, x, y) && x != y
    ensures Acyclic(h)
  {
    forall a, b | Edge(h, a, b) ensures !Leq(h, b, a) {
      if Leq(h, b, a) {
        LeqSubset(h, g, b, a);
        LeqAntisym(g, a, b);
      }
    }
  }

  lemma NoSelfEdge<T(!new)>(g: Graph<T>, a: T)
    requires WellFormed(g)
    ensures !Edge(g, a, a)
  {
    if Edge(g, a, a) { LeqRefl(g, a); }
  }

  // ----- inserting an element

  function Inserted<T(!new)>(g: Graph<T>, x: T): Graph<T> { g[x := {}] }

  lemma InsertedOrder<T(!new)>(g: Graph<T>, x: T)
    requires WellFormed(g) && x !in g
    ensures WellFormed(Inserted(g, x))
    ensures forall a, b :: Leq(Inserted(g, x), a, b) <==> Leq(g, a, b) || (a == x && b == x)
  {
    var h := Inserted(g, x);
    assert forall a, b :: Edge(h, a, b) <==> Edge(g, a, b);
    forall a, b ensures Leq(h, a, b) <==> Leq(g, a, b) || (a == x && b == x) {
      if p :| Path(g, p, a, b) {
        forall i | 0 <= i < |p| - 1 ensures Edge(h, p[i], p[i + 1]) { assert Edge(g, p[i], p[i + 1]); }
        assert Path(h, p, a, b);
      }
      if a == x && b == x { LeqRefl(h, x); }
      if p :| Path(h, p, a, b) {
        forall i | 0 <= i < |p| - 1 ensures Edge(g, p[i], p[i + 1]) { assert Edge(h, p[i], p[i + 1]); }
        if |p| > 1 { assert Edge(g, p[|p| - 2], p[|p| - 1]); }
        if b in g { assert Path(g, p, a, b); }
      }
    }
  }

  // ----- adding a relation

  function WithEdge<T(!new)>(g: Graph<T>, u: T, v: T): Graph<T>
    requires u in g
  {
    g[u := g[u] + {v}]
  }

  /** Adding u < v relates exactly what was related, and all below u with all above v. */
  lemma WithEdgeOrder<T(!new)>(g: Graph<T>, u: T, v: T)
    requires WellFormed(g) && u in g && v in g && !Leq(g, v, u)
    ensures WellFormed(WithEdge(g, u, v))
    ensures forall a, b :: Leq(WithEdge(g, u, v), a, b) <==>
                           Leq(g, a, b) || (Leq(g, a, u) && Leq(g, v, b))
  {
    var h := WithEdge(g, u, v);
    assert forall x, y :: Edge(h, x, y) <==> Edge(g, x, y) || (x == u && y == v);
    forall a, b ensures Leq(h, a, b) <==> Leq(g, a, b) || (Leq(g, a, u) && Leq(g, v, b)) {
      if Leq(h, a, b) {
        var p :| Path(h, p, a, b);
        WithEdgePath(g, u, v, p, a, b);
      }
      WithEdgeKeeps(g, u, v);
      if Leq(g, a, b) { LeqSubset(g, h, a, b); }
      if Leq(g, a, u) && Leq(g, v, b) {
        LeqSubset(g, h, a, u);
        LeqSubset(g, h, v, b);
        LeqCons(h, u, v, b);
        LeqTrans(h, a, u, b);
      }
    }
    WithEdgeAcyclic(g, u, v);
  }

  lemma WithEdgeAcyclic<T(!new)>(g: Graph<T>, u: T, v: T)
    requires WellFormed(g) && u in g && v in g && !Leq(g, v, u)
    requires forall a, b :: Leq(WithEdge(g, u, v), a, b) <==>
                            Leq(g, a, b) || (Leq(g, a, u) && Leq(g, v, b))
    ensures WellFormed(WithEdge(g, u, v))
  {
    var h := WithEdge(g, u, v);
    forall a, b | Edge(h, a, b) ensures !Leq(h, b, a) {
      if Leq(h, b, a) {
        if Edge(g, a, b) {
          LeqEdge(g, a, b);
          if Leq(g, b, u) && Leq(g, v, a) {
            LeqTrans(g, v, a, b);
            LeqTrans(g, v, b, u);
          }
        }
      }
    }
  }

  lemma WithEdgeKeeps<T(!new)>(g: Graph<T>, u: T, v: T)
    requires WellFormed(g) && u in g && v in g
    ensures forall x, y :: Edge(g, x, y) ==> Leq(WithEdge(g, u, v), x, y)
  {
    var h := WithEdge(g, u, v);
    forall x, y | Edge(g, x, y) ensures Leq(h, x, y) {
      assert Edge(h, x, y);
      LeqEdge(h, x, y);
    }
  }

  lemma {:induction false} WithEdgePath<T(!new)>(g: Graph<T>, u: T, v: T, p: seq<T>, a: T, b: T)
    requires Closed(g) && u in g && v in g && Path(WithEdge(g, u, v), p, a, b)
    ensures Leq(g, a, b) || (Leq(g, a, u) && Leq(g, v, b))
    decreases |p|
  {
    var h := WithEdge(g, u, v);
    if |p| == 1 {
      LeqRefl(g, a);
    } else {
      PathTail(h, p, a, b);
      WithEdgePath(g, u, v, p[1..], p[1], b);
      if Edge(g, a, p[1]) {
        if Leq(g, p[1], b) { LeqCons(g, a, p[1], b); } else { LeqCons(g, a, p[1], u); }
      } else {
        LeqRefl(g, u);
      }
    }
  }

  // ----- removing an element

  /** x's predecessors take over x's successors. */
  function Reparented<T(!new)>(g: Graph<T>, x: T): Graph<T>
    requires x in g
  {
    map a | a in g :: if x in g[a] then g[a] + g[x] - {x} else g[a]
  }

  function Removed<T(!new)>(g: Graph<T>, x: T): Graph<T>
    requires x in g
  {
    Reparented(g, x) - {x}
  }

  lemma RemovedOrder<T(!new)>(g: Graph<T>, x: T)
    requires WellFormed(g) && x in g
    ensures WellFormed(Removed(g, x)) && Removed(g, x).Keys == g.Keys - {x}
    ensures forall a, b :: Leq(Removed(g, x), a, b) <==> Leq(g, a, b) && a != x && b != x
    ensures forall a :: a in Removed(g, x) ==> x !in Removed(g, x)[a]
  {
    var h := Removed(g, x);
    NoSelfEdge(g, x);
    RemovedEdges(g, x);
    AcyclicSubset(h, g);
    forall a, b ensures Leq(h, a, b) <==> Leq(g, a, b) && a != x && b != x {
      if Leq(h, a, b) {
        LeqSubset(h, g, a, b);
        LeqDomain(h, a, b);
      }
      if a != x && b != x && Leq(g, a, b) {
        var p :| Path(g, p, a, b);
        RemovedPath(g, x, p, a, b);
      }
    }
  }

  lemma RemovedEdges<T(!new)>(g: Graph<T>, x: T)
    requires WellFormed(g) && x in g
    ensures Closed(Removed(g, x))
    ensures forall a, b :: Edge(Removed(g, x), a, b) ==> Leq(g, a, b) && a != b && a != x && b != x
  {
    var h := Removed(g, x);
    NoSelfEdge(g, x);
    forall a, b | Edge(h, a, b) ensures Leq(g, a, b) && a != b && a != x && b != x && b in h {
      if Edge(g, a, b) {
        LeqEdge(g, a, b);
        NoSelfEdge(g, a);
      } else {
        LeqEdge(g, x, b);
        LeqCons(g, a, x, b);
      }
    }
  }

  lemma {:induction false} RemovedPath<T(!new)>(g: Graph<T>, x: T, p: seq<T>, a: T, b: T)
    requires WellFormed(g) && x in g && a != x && b != x && Path(g, p, a, b)
    ensures Leq(Removed(g, x), a, b)
    decreases |p|
  {
    var h := Removed(g, x);
    if |p| == 1 {
      LeqRefl(h, a);
    } else {
      PathTail(g, p, a, b);
      if p[1] != x {
        RemovedPath(g, x, p[1..], p[1], b);
        LeqCons(h, a, p[1], b);
      } else {
        PathTail(g, p[1..], x, b);
        NoSelfEdge(g, x);
        assert p[1..][1] == p[2];
        RemovedPath(g, x, p[1..][1..], p[2], b);
        assert Edge(h, a, p[2]);
        LeqCons(h, a, p[2], b);
      }
    }
  }

  // ----- deleting a relation

  /** The edge u -> v is dropped; u keeps v's successors and u's predecessors keep v. */
  function WithoutEdge<T(!new)>(g: Graph<T>, u: T, v: T): Graph<T>
    requires u in g && v in g
  {
    var h := g[u := g[u] - {v} + g[v]];
    map a | a in h :: if u in h[a] then h[a] + {v} else h[a]
  }

  lemma WithoutEdgeEdges<T(!new)>(g: Graph<T>, u: T, v: T)
    requires WellFormed(g) && Edge(g, u, v)
    ensures Closed(WithoutEdge(g, u, v)) && WithoutEdge(g, u, v).Keys == g.Keys
    ensures forall a, b :: Edge(WithoutEdge(g, u, v), a, b) <==>
                           (Edge(g, a, b) && !(a == u && b == v))
                           || (a == u && Edge(g, v, b)) || (Edge(g, a, u) && b == v)
    ensures forall a, b :: Edge(WithoutEdge(g, u, v), a, b) ==> Leq(g, a, b) && a != b
  {
    var h := WithoutEdge(g, u, v);
    NoSelfEdge(g, u);
    NoSelfEdge(g, v);
    if Edge(g, v, u) { LeqEdge(g, v, u); }
    forall a, b
      ensures Edge(h, a, b) <==> (Edge(g, a, b) && !(a == u && b == v))
                                 || (a == u && Edge(g, v, b)) || (Edge(g, a, u) && b == v)
    {
    }
    forall a, b | Edge(h, a, b) ensures Leq(g, a, b) && a != b {
      if Edge(g, a, b) {
        LeqEdge(g, a, b);
        NoSelfEdge(g, a);
      } else if a == u {
        LeqEdge(g, v, b);
        LeqCons(g, u, v, b);
      } else {
        LeqEdge(g, u, v);
        LeqCons(g, a, u, v);
        if a == v { LeqEdge(g, v, u); }
      }
    }
  }

  /** A relation that some path witnesses without using u -> v survives. */
  lemma {:induction false} AvoidingPath<T(!new)>(g: Graph<T>, u: T, v: T, p: seq<T>, a: T, b: T)
    requires WellFormed(g) && Edge(g, u, v) && Path(g, p, a, b)
    requires !(Leq(g, a, u) && Leq(g, v, b))
    ensures Leq(WithoutEdge(g, u, v), a, b)
    decreases |p|
  {
    var h := WithoutEdge(g, u, v);
    WithoutEdgeEdges(g, u, v);
    if |p| == 1 {
      LeqRefl(h, a);
    } else {
      PathTail(g, p, a, b);
      if Leq(g, p[1], u) { LeqCons(g, a, p[1], u); }
      AvoidingPath(g, u, v, p[1..], p[1], b);
      if a == u { LeqRefl(g, u); }
      assert Edge(h, a, p[1]);
      LeqCons(h, a, p[1], b);
    }
  }

  lemma Avoiding<T(!new)>(g: Graph<T>, u: T, v: T, a: T, b: T)
    requires WellFormed(g) && Edge(g, u, v) && Leq(g, a, b)
    requires !(Leq(g, a, u) && Leq(g, v, b))
    ensures Leq(WithoutEdge(g, u, v), a, b)
  {
    var p :| Path(g, p, a, b);
    AvoidingPath(g, u, v, p, a, b);
  }

  lemma SurvivesBelow<T(!new)>(g: Graph<T>, u: T, v: T, a: T, b: T)
    requires WellFormed(g) && Edge(g, u, v) && Leq(g, a, u) && Leq(g, v, b) && a != u
    ensures Leq(WithoutEdge(g, u, v), a, b)
  {
    var h := WithoutEdge(g, u, v);
    WithoutEdgeEdges(g, u, v);
    var x := LeqLast(g, a, u);
    if Leq(g, v, x) { LeqEdge(g, x, u); LeqTrans(g, v, x, u); }
    Avoiding(g, u, v, a, x);
    Avoiding(g, u, v, v, b);
    LeqCons(h, x, v, b);
    LeqTrans(h, a, x, b);
  }

  lemma SurvivesAbove<T(!new)>(g: Graph<T>, u: T, v: T, b: T)
    requires WellFormed(g) && Edge(g, u, v) && Leq(g, v, b) && b != v
    ensures Leq(WithoutEdge(g, u, v), u, b)
  {
    var h := WithoutEdge(g, u, v);
    WithoutEdgeEdges(g, u, v);
    var y := LeqFirst(g, v, b);
    if Leq(g, y, u) { LeqCons(g, v, y, u); }
    Avoiding(g, u, v, y, b);
    LeqCons(h, u, y, b);
  }

  lemma SurvivesBetween<T(!new)>(g: Graph<T>, u: T, v: T)
    requires WellFormed(g) && Edge(g, u, v) && !Covers(g, u, v)
    ensures Leq(WithoutEdge(g, u, v), u, v)
  {
    NoSelfEdge(g, u);
    LeqEdge(g, u, v);
    var w :| Lt(g, u, w) && Lt(g, w, v);
    if Leq(g, v, w) { LeqAntisym(g, v, w); }
    if Leq(g, w, u) { LeqAntisym(g, w, u); }
    Avoiding(g, u, v, u, w);
    Avoiding(g, u, v, w, v);
    LeqTrans(WithoutEdge(g, u, v), u, w, v);
  }

  lemma CoverGone<T(!new)>(g: Graph<T>, u: T, v: T)
    requires WellFormed(g) && Edge(g, u, v) && Covers(g, u, v)
    ensures !Leq(WithoutEdge(g, u, v), u, v)
  {
    var h := WithoutEdge(g, u, v);
    WithoutEdgeEdges(g, u, v);
    NoSelfEdge(g, v);
    NoSelfEdge(g, u);
    if Leq(h, u, v) {
      var c := LeqFirst(h, u, v);
      LeqSubset(h, g, c, v);
      assert Lt(g, u, c);
      assert Lt(g, c, v);
    }
  }

  /** Dropping a direct edge loses exactly the pair (u, v), and only when nothing lies
      strictly between; otherwise the order is unchanged although edges were rewritten. */
  lemma WithoutEdgeOrder<T(!new)>(g: Graph<T>, u: T, v: T)
    requires WellFormed(g) && Edge(g, u, v)
    ensures WellFormed(WithoutEdge(g, u, v))
    ensures forall a, b :: Leq(WithoutEdge(g, u, v), a, b) <==>
                           Leq(g, a, b) && !(a == u && b == v && Covers(g, u, v))
  {
    var h := WithoutEdge(g, u, v);
    WithoutEdgeEdges(g, u, v);
    AcyclicSubset(h, g);
    forall a, b ensures Leq(h, a, b) <==> Leq(g, a, b) && !(a == u && b == v && Covers(g, u, v)) {
      if Leq(h, a, b) {
        LeqSubset(h, g, a, b);
        if a == u && b == v && Covers(g, u, v) { CoverGone(g, u, v); }
      } else if Leq(g, a, b) {
        if !(Leq(g, a, u) && Leq(g, v, b)) {
          Avoiding(g, u, v, a, b);
        } else if a != u {
          SurvivesBelow(g, u, v, a, b);
        } else if b != v {
          SurvivesAbove(g, u, v, b);
        } else if !Covers(g, u, v) {
          SurvivesBetween(g, u, v);
        }
      }
    }
  }

  /** An immediate successor is always stored as a direct edge. */
  lemma CoverIsEdge<T(!new)>(g: Graph<T>, u: T, v: T)
    requires WellFormed(g) && Covers(g, u, v)
    ensures Edge(g, u, v)
  {
    var c := LeqFirst(g, u, v);
    NoSelfEdge(g, u);
    if c != v {
      LeqDomain(g, c, v);
      LeqEdge(g, u, c);
      assert Lt(g, u, c) && Lt(g, c, v);
    }
  }
}
