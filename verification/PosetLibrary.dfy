/** The poset library: a table of posets under 32-bit identifiers, changed in place by
    insert, remove, add and del, and queried by test. */
module PosetLibrary {
  import opened Digraph

  /** One poset: each element with the elements stored as its direct successors. */
  type Relation = Graph<string>

  /** A C string argument, which may be the null pointer. */
  datatype CString = Null | Str(s: string)

  const UINT32_SIZE: nat := 0x1_0000_0000

  /** Callers pass 64-bit identifiers; the table keeps their low 32 bits. */
  function Key(id: nat): nat { id % UINT32_SIZE }

  // ----- what the operations mean

  datatype State = State(nextId: nat, posets: map<nat, Relation>)

  const INITIAL := State(0, map[])

  predicate Has(s: State, id: nat, v: CString) {
    Key(id) in s.posets && v.Str? && v.s in s.posets[Key(id)]
  }

  predicate HasBoth(s: State, id: nat, v1: CString, v2: CString) {
    Has(s, id, v1) && Has(s, id, v2)
  }

  function Poset(s: State, id: nat): Relation
    requires Key(id) in s.posets
  {
    s.posets[Key(id)]
  }

  function Updated(s: State, id: nat, g: Relation): State { s.(posets := s.posets[Key(id) := g]) }

  ghost predicate Valid(s: State) {
    s.nextId < UINT32_SIZE && forall k :: k in s.posets ==> WellFormed(s.posets[k])
  }

  /** The relation the library reports. */
  ghost predicate Tested(s: State, id: nat, a: string, b: string) {
    Key(id) in s.posets && Leq(Poset(s, id), a, b)
  }

  datatype Op =
    | New
    | Delete(id: nat)
    | Insert(id: nat, v: CString)
    | Remove(id: nat, v: CString)
    | Add(id: nat, v1: CString, v2: CString)
    | Del(id: nat, v1: CString, v2: CString)
    | Clear(id: nat)

  ghost predicate Addable(s: State, id: nat, v1: CString, v2: CString) {
    && HasBoth(s, id, v1, v2)
    && !Leq(Poset(s, id), v1.s, v2.s) && !Leq(Poset(s, id), v2.s, v1.s)
  }

  ghost predicate DirectlyRelated(s: State, id: nat, v1: CString, v2: CString) {
    HasBoth(s, id, v1, v2) && v1.s != v2.s && Edge(Poset(s, id), v1.s, v2.s)
  }

  ghost function Apply(s: State, op: Op): State {
    match op
    case New =>
      State((s.nextId + 1) % UINT32_SIZE,
            if s.nextId in s.posets then s.posets else s.posets[s.nextId := map[]])
    case Delete(id) => s.(posets := s.posets - {Key(id)})
    case Insert(id, v) =>
      if Key(id) in s.posets && v.Str? && v.s !in Poset(s, id) then Updated(s, id, Inserted(Poset(s, id), v.s)) else s
    case Remove(id, v) => if Has(s, id, v) then Updated(s, id, Removed(Poset(s, id), v.s)) else s
    case Add(id, v1, v2) =>
      if Addable(s, id, v1, v2) then Updated(s, id, WithEdge(Poset(s, id), v1.s, v2.s)) else s
    case Del(id, v1, v2) =>
      if DirectlyRelated(s, id, v1, v2) then Updated(s, id, WithoutEdge(Poset(s, id), v1.s, v2.s)) else s
    case Clear(id) => if Key(id) in s.posets then Updated(s, id, map[]) else s
  }

  ghost function Run(s: State, ops: seq<Op>): State
    decreases |ops|
  {
    if ops == [] then s else Run(Apply(s, ops[0]), ops[1..])
  }

  // ----- properties

  lemma ApplyKeepsValid(s: State, op: Op)
    requires Valid(s)
    ensures Valid(Apply(s, op))
  {
    match op
    case New =>
    case Delete(id) =>
    case Insert(id, v) =>
      if Key(id) in s.posets && v.Str? && v.s !in Poset(s, id) { InsertedOrder(Poset(s, id), v.s); }
    case Remove(id, v) => if Has(s, id, v) { RemovedOrder(Poset(s, id), v.s); }
    case Add(id, v1, v2) => if Addable(s, id, v1, v2) { WithEdgeOrder(Poset(s, id), v1.s, v2.s); }
    case Del(id, v1, v2) => if DirectlyRelated(s, id, v1, v2) { WithoutEdgeOrder(Poset(s, id), v1.s, v2.s); }
    case Clear(id) =>
  }

  lemma {:induction false} RunKeepsValid(s: State, ops: seq<Op>)
    requires Valid(s)
    ensures Valid(Run(s, ops))
    decreases |ops|
  {
    if ops != [] {
      ApplyKeepsValid(s, ops[0]);
      RunKeepsValid(Apply(s, ops[0]), ops[1..]);
    }
  }

  /** After any sequence of operations the reported relation of every poset is a partial order. */
  lemma AlwaysPartialOrder(ops: seq<Op>, id: nat)
    ensures
      var s := Run(INITIAL, ops);
      && (forall a :: Tested(s, id, a, a) <==> Has(s, id, Str(a)))
      && (forall a, b :: Tested(s, id, a, b) && Tested(s, id, b, a) ==> a == b)
      && (forall a, b, c :: Tested(s, id, a, b) && Tested(s, id, b, c) ==> Tested(s, id, a, c))
  {
    RunKeepsValid(INITIAL, ops);
    var s := Run(INITIAL, ops);
    if Key(id) in s.posets { PartialOrder(Poset(s, id)); }
  }

  /** add relates exactly the pairs at or below v1 with those at or above v2. */
  lemma AddEffect(s: State, id: nat, v1: CString, v2: CString)
    requires Valid(s)
    ensures
      var t := Apply(s, Add(id, v1, v2));
      forall a, b :: Tested(t, id, a, b) <==>
        Tested(s, id, a, b)
        || (Addable(s, id, v1, v2) && Tested(s, id, a, v1.s) && Tested(s, id, v2.s, b))
  {
    if Addable(s, id, v1, v2) { WithEdgeOrder(Poset(s, id), v1.s, v2.s); }
  }

  /** remove keeps the order among the survivors, and no edge leads to the removed element. */
  lemma RemoveEffect(s: State, id: nat, v: CString)
    requires Valid(s) && Has(s, id, v)
    ensures
      var t := Apply(s, Remove(id, v));
      && Poset(t, id).Keys == Poset(s, id).Keys - {v.s}
      && (forall a, b :: Tested(t, id, a, b) <==> Tested(s, id, a, b) && a != v.s && b != v.s)
      && (forall a :: a in Poset(t, id) ==> v.s !in Poset(t, id)[a])
  {
    RemovedOrder(Poset(s, id), v.s);
  }

  /** v2 is an element strictly above v1 with no element strictly between. */
  ghost predicate Deletable(s: State, id: nat, v1: CString, v2: CString) {
    && HasBoth(s, id, v1, v2) && v1.s != v2.s && Tested(s, id, v1.s, v2.s)
    && !exists c :: c != v1.s && c != v2.s && Tested(s, id, v1.s, c) && Tested(s, id, c, v2.s)
  }

  lemma DeletableCovers(s: State, id: nat, v1: CString, v2: CString)
    requires HasBoth(s, id, v1, v2)
    ensures Deletable(s, id, v1, v2) <==> Covers(Poset(s, id), v1.s, v2.s)
  {
    var g := Poset(s, id);
    if Deletable(s, id, v1, v2) {
      forall c ensures !(Lt(g, v1.s, c) && Lt(g, c, v2.s)) {
        if Lt(g, v1.s, c) && Lt(g, c, v2.s) { assert Tested(s, id, v1.s, c) && Tested(s, id, c, v2.s); }
      }
    }
    if Covers(g, v1.s, v2.s) {
      forall c | c != v1.s && c != v2.s && Tested(s, id, v1.s, c) && Tested(s, id, c, v2.s) ensures false {
        assert Lt(g, v1.s, c) && Lt(g, c, v2.s);
      }
    }
  }

  /** del loses exactly the pair (v1, v2), and exactly when v2 covers v1; in every other case
      the reported relation stays as it was, even when edges were rewritten. */
  lemma DelEffect(s: State, id: nat, v1: CString, v2: CString)
    requires Valid(s)
    ensures
      var t := Apply(s, Del(id, v1, v2));
      forall a, b :: Tested(t, id, a, b) <==>
        Tested(s, id, a, b) && !(Deletable(s, id, v1, v2) && a == v1.s && b == v2.s)
  {
    if DirectlyRelated(s, id, v1, v2) {
      WithoutEdgeOrder(Poset(s, id), v1.s, v2.s);
      DeletableCovers(s, id, v1, v2);
    } else if Deletable(s, id, v1, v2) {
      DeletableCovers(s, id, v1, v2);
      CoverIsEdge(Poset(s, id), v1.s, v2.s);
    }
  }

  lemma InsertEffect(s: State, id: nat, v: CString)
    requires Valid(s) && Key(id) in s.posets && v.Str?
    ensures
      var t := Apply(s, Insert(id, v));
      && Poset(t, id).Keys == Poset(s, id).Keys + {v.s}
      && (forall a, b :: Tested(t, id, a, b) <==> Tested(s, id, a, b) || (a == b == v.s))
  {
    if v.s in Poset(s, id) { LeqRefl(Poset(s, id), v.s); } else { InsertedOrder(Poset(s, id), v.s); }
  }

  /** No operation touches another poset. */
  lemma OthersUntouched(s: State, op: Op, k: nat)
    requires k in s.posets && (op.New? || Key(op.id) != k)
    ensures k in Apply(s, op).posets && Apply(s, op).posets[k] == s.posets[k]
  {
  }

  // ----- the program

  /** Every visited or waiting element is above v1, and an edge from a visited element
      leads to a visited or waiting one; v2 has not been visited. */
  ghost predicate Searching(g: Relation, v1: string, v2: string, visited: set<string>, toVisit: set<string>) {
    && v1 in visited && v2 !in visited && visited !! toVisit && visited + toVisit <= g.Keys
    && (forall x :: x in visited || x in toVisit ==> Leq(g, v1, x))
    && (forall x :: x in visited ==> g[x] <= visited + toVisit)
  }

  lemma SearchStarts(g: Relation, v1: string, v2: string)
    requires WellFormed(g) && v1 in g && v1 != v2
    ensures Searching(g, v1, v2, {v1}, g[v1])
  {
    LeqRefl(g, v1);
    NoSelfEdge(g, v1);
    forall x | x in g[v1] ensures Leq(g, v1, x) { LeqEdge(g, v1, x); }
  }

  lemma SearchGoesOn(g: Relation, v1: string, v2: string, visited: set<string>, toVisit: set<string>, x: string)
    requires Closed(g) && Searching(g, v1, v2, visited, toVisit) && x in toVisit && x != v2
    ensures Searching(g, v1, v2, visited + {x}, (toVisit - {x}) + (g[x] - (visited + {x})))
  {
    forall y | y in g[x] ensures Leq(g, v1, y) {
      LeqEdge(g, x, y);
      LeqTrans(g, v1, x, y);
    }
  }

  lemma SearchEnds(g: Relation, v1: string, v2: string, visited: set<string>)
    requires Searching(g, v1, v2, visited, {})
    ensures !Leq(g, v1, v2)
  {
    if p :| Path(g, p, v1, v2) { StaysInside(g, visited, p, v1, v2); }
  }

  /** Worklist search from v1 along direct edges. */
  method RelationExists(g: Relation, v1: string, v2: string) returns (r: bool)
    requires WellFormed(g) && v1 in g && v2 in g
    ensures r <==> Leq(g, v1, v2)
  {
    if v1 == v2 {
      LeqRefl(g, v1);
      return true;
    }
    var visited := {v1};
    var toVisit := g[v1];
    SearchStarts(g, v1, v2);
    while toVisit != {}
      invariant Searching(g, v1, v2, visited, toVisit)
      decreases g.Keys - visited
    {
      var current :| current in toVisit;
      if current != v2 { SearchGoesOn(g, v1, v2, visited, toVisit, current); }
      toVisit := toVisit - {current};
      visited := visited + {current};
      if current == v2 { return true; }
      toVisit := NotVisited(g[current], visited, toVisit);
    }
    SearchEnds(g, v1, v2, visited);
    return false;
  }

  method NotVisited(next: set<string>, visited: set<string>, toVisit: set<string>) returns (r: set<string>)
    ensures r == toVisit + (next - visited)
  {
    r := toVisit;
    var rest := next;
    while rest != {}
      invariant rest <= next && r == toVisit + ((next - rest) - visited)
      decreases rest
    {
      var x :| x in rest;
      if x !in visited { r := r + {x}; }
      rest := rest - {x};
    }
  }

  lemma {:induction false} StaysInside(g: Relation, inside: set<string>, p: seq<string>, a: string, b: string)
    requires inside <= g.Keys && forall x :: x in inside ==> g[x] <= inside
    requires Path(g, p, a, b) && a in inside
    ensures b in inside
    decreases |p|
  {
    if |p| > 1 {
      PathTail(g, p, a, b);
      StaysInside(g, inside, p[1..], p[1], b);
    }
  }

  /** The edges while the loop over the elements still has some to visit: those that led to v1
      lead to v2 as well. */
  ghost function Passed(h: Relation, rest: set<string>, v1: string, v2: string): Relation {
    map a | a in h :: if a !in rest && v1 in h[a] then h[a] + {v2} else h[a]
  }

  lemma PassedNone(h: Relation, v1: string, v2: string)
    ensures Passed(h, h.Keys, v1, v2) == h
  {
  }

  lemma PassedOne(h: Relation, rest: set<string>, v1: string, v2: string, child: string)
    requires child in rest && rest <= h.Keys
    ensures var p := Passed(h, rest, v1, v2);
      && child in p && p[child] == h[child]
      && Passed(h, rest - {child}, v1, v2) == if v1 in h[child] then p[child := h[child] + {v2}] else p
  {
    var p := Passed(h, rest, v1, v2);
    assert Passed(h, rest - {child}, v1, v2) == if v1 in h[child] then p[child := h[child] + {v2}] else p;
  }

  lemma PassedAll(g: Relation, v1: string, v2: string)
    requires v1 in g && v2 in g
    ensures Passed(g[v1 := g[v1] - {v2} + g[v2]], {}, v1, v2) == WithoutEdge(g, v1, v2)
  {
  }

  class Library {
    var idNum: nat
    var posets: map<nat, Relation>

    constructor ()
      ensures Contents() == INITIAL
    {
      idNum, posets := 0, map[];
    }

    function Contents(): State
      reads this
    {
      State(idNum, posets)
    }

    method PosetNew() returns (id: nat)
      requires Valid(Contents())
      modifies this
      ensures Contents() == Apply(old(Contents()), New) && id == old(idNum) && id in posets
    {
      if idNum !in posets { posets := posets[idNum := map[]]; }
      id := idNum;
      idNum := (idNum + 1) % UINT32_SIZE;
    }

    method PosetDelete(id: nat)
      modifies this
      ensures Contents() == Apply(old(Contents()), Delete(id))
    {
      if Key(id) in posets { posets := posets - {Key(id)}; }
    }

    method PosetSize(id: nat) returns (n: nat)
      ensures n == if Key(id) in posets then |Poset(Contents(), id)| else 0
    {
      if Key(id) in posets { n := |posets[Key(id)]|; } else { n := 0; }
    }

    method PosetInsert(id: nat, value: CString) returns (r: bool)
      modifies this
      ensures Contents() == Apply(old(Contents()), Insert(id, value))
      ensures r <==> old(Key(id) in posets && value.Str? && !Has(Contents(), id, value))
    {
      if value.Null? { return false; }
      if Key(id) in posets && value.s !in posets[Key(id)] {
        posets := posets[Key(id) := posets[Key(id)][value.s := {}]];
        return true;
      }
      return false;
    }

    /** Every predecessor of x takes over x's successors and loses x. */
    method ReparentChildren(id: nat, x: string)
      requires Has(Contents(), id, Str(x)) && x !in Poset(Contents(), id)[x]
      modifies this`posets
      ensures posets == old(posets)[Key(id) := Reparented(old(Poset(Contents(), id)), x)]
    {
      var k := Key(id);
      var parentElements := posets[k][x];
      ghost var g := posets[k];
      var rest := posets[k].Keys;
      while rest != {}
        invariant k in posets && posets == old(posets)[k := posets[k]]
        invariant rest <= g.Keys == posets[k].Keys
        invariant forall a :: a in g ==> posets[k][a] == if a in rest then g[a] else Reparented(g, x)[a]
        decreases rest
      {
        var child :| child in rest;
        var successors := posets[k][child];
        if x in successors {
          successors := successors + parentElements - {x};
        }
        posets := posets[k := posets[k][child := successors]];
        rest := rest - {child};
      }
      assert posets[k] == Reparented(g, x);
    }

    method PosetRemove(id: nat, value: CString) returns (r: bool)
      requires Valid(Contents())
      modifies this
      ensures Contents() == Apply(old(Contents()), Remove(id, value))
      ensures r <==> old(Has(Contents(), id, value))
    {
      if Key(id) !in posets || value.Null? || value.s !in posets[Key(id)] { return false; }
      NoSelfEdge(posets[Key(id)], value.s);
      ReparentChildren(id, value.s);
      posets := posets[Key(id) := posets[Key(id)] - {value.s}];
      return true;
    }

    method PosetAdd(id: nat, value1: CString, value2: CString) returns (r: bool)
      requires Valid(Contents())
      modifies this
      ensures Contents() == Apply(old(Contents()), Add(id, value1, value2))
      ensures r <==> old(Addable(Contents(), id, value1, value2))
    {
      if Key(id) !in posets || value1.Null? || value2.Null?
         || value1.s !in posets[Key(id)] || value2.s !in posets[Key(id)] {
        return false;
      }
      var g := posets[Key(id)];
      var forwards := RelationExists(g, value1.s, value2.s);
      if forwards { return false; }
      var backwards := RelationExists(g, value2.s, value1.s);
      if backwards { return false; }
      posets := posets[Key(id) := g[value1.s := g[value1.s] + {value2.s}]];
      return true;
    }

    /** Drops the direct edge v1 -> v2, if there is one, and restores what followed from it. */
    method DelNotDisturb(id: nat, v1: string, v2: string) returns (r: bool)
      requires Valid(Contents()) && HasBoth(Contents(), id, Str(v1), Str(v2))
      modifies this`posets
      ensures r <==> old(DirectlyRelated(Contents(), id, Str(v1), Str(v2)))
      ensures posets == if r then old(posets)[Key(id) := WithoutEdge(old(Poset(Contents(), id)), v1, v2)]
                        else old(posets)
    {
      hide Passed, WithoutEdge;
      var k := Key(id);
      if v1 == v2 || v2 !in posets[k][v1] { return false; }
      ghost var g := posets[k];
      NoSelfEdge(g, v1);
      var kept := posets[k][v1] - {v2};
      posets := posets[k := posets[k][v1 := kept + posets[k][v2]]];
      ghost var h := posets[k];
      var rest := posets[k].Keys;
      PassedNone(h, v1, v2);
      while rest != {}
        invariant rest <= h.Keys && posets == old(posets)[k := Passed(h, rest, v1, v2)]
        decreases rest
      {
        var child :| child in rest;
        PassedOne(h, rest, v1, v2, child);
        if v1 in posets[k][child] { posets := posets[k := posets[k][child := posets[k][child] + {v2}]]; }
        rest := rest - {child};
      }
      PassedAll(g, v1, v2);
      return true;
    }

    method PosetDel(id: nat, value1: CString, value2: CString) returns (r: bool)
      requires Valid(Contents())
      modifies this
      ensures Contents() == Apply(old(Contents()), Del(id, value1, value2))
      ensures r <==> old(Deletable(Contents(), id, value1, value2))
    {
      ghost var s := Contents();
      ApplyKeepsValid(s, Del(id, value1, value2));
      DelEffect(s, id, value1, value2);
      if Key(id) !in posets || value1.Null? || value2.Null?
         || value1.s !in posets[Key(id)] || value2.s !in posets[Key(id)] {
        return false;
      }
      var related := RelationExists(posets[Key(id)], value1.s, value2.s);
      if DirectlyRelated(s, id, value1, value2) { LeqEdge(posets[Key(id)], value1.s, value2.s); }
      if !related { return false; }
      var dropped := DelNotDisturb(id, value1.s, value2.s);
      if !dropped { return false; }
      var still := RelationExists(posets[Key(id)], value1.s, value2.s);
      assert still <==> Tested(Contents(), id, value1.s, value2.s);
      return !still;
    }

    method PosetTest(id: nat, value1: CString, value2: CString) returns (r: bool)
      requires Valid(Contents())
      ensures r <==> value1.Str? && value2.Str? && Tested(Contents(), id, value1.s, value2.s)
    {
      if Key(id) !in posets || value1.Null? || value2.Null?
         || value1.s !in posets[Key(id)] || value2.s !in posets[Key(id)] {
        if Key(id) in posets && value1.Str? && value2.Str? && Leq(posets[Key(id)], value1.s, value2.s) {
          LeqDomain(posets[Key(id)], value1.s, value2.s);
        }
        return false;
      }
      r := RelationExists(posets[Key(id)], value1.s, value2.s);
    }

    method PosetClear(id: nat)
      modifies this
      ensures Contents() == Apply(old(Contents()), Clear(id))
    {
      if Key(id) in posets { posets := posets[Key(id) := map[]]; }
    }
  }
}
