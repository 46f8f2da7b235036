/** Two programs whose declarations are not judged by the frame they are in: one is refused a
    name its frame does not have, the other gets a name its frame already has. */
module MacchiatoRedeclaration {
  import opened MacchiatoCode
  import opened Prelude
  import opened Macchiato
  import opened MacchiatoMachine
  import opened MacchiatoProcedures

  // ----- runs written out

  lemma RunSnoc(states: seq<State>)
    requires Run(states) && var s := states[|states| - 1]; CanStep(s) && Step(s).1
    ensures Run(states + [Step(states[|states| - 1]).0])
  {
    hide Sound, Ready, Step;
    var states' := states + [Step(states[|states| - 1]).0];
    forall k | 0 <= k < |states'| - 1 ensures CanStep(states'[k]) && Step(states'[k]) == (states'[k + 1], true) {
      if k < |states| - 1 { RunStep(states, k); }
    }
  }

  lemma {:induction false} HistoryPrefix(states: seq<State>, t: State, k: nat)
    requires Run(states) && Run(states + [t]) && k < |states|
    ensures HistoryOf(states + [t], k) == HistoryOf(states, k)
  {
    hide Run, Remember;
    if k > 0 { HistoryPrefix(states, t, k - 1); }
  }

  /** What is known of the last state of a run. */
  ghost predicate At(states: seq<State>, stack: seq<Instr>, tables: seq<Table>, h: History, nextFrame: nat) {
    && states != [] && Run(states) && Started(states[0])
    && var s := states[|states| - 1];
    && s.control.stack == stack && Tables(s.flat) == tables && HistoryOf(states, |states| - 1) == h
    && s.control.nextFrame == nextFrame
  }

  /** Instructions without parameters that succeed with these tables. */
  predicate Succeeds(i: Instr, tables: seq<Table>, h: History) {
    match i
    case Block(_) => true
    case EndBlock => true
    case ProcedureDeclaration(_, procedure, _, doubleParameter, invalidName, _) =>
      !doubleParameter && !invalidName && (Confused(h, i) <==> DeclaredOwn(h, procedure))
    case ProcedureInvoke(procedure, arguments) =>
      && arguments == [] && tables != []
      && var p := tables[|tables| - 1].procedures;
      && procedure in p && p[procedure].ProcedureDeclaration? && p[procedure].parameters == []
    case _ => false
  }

  function Pushed(i: Instr, tables: seq<Table>): seq<Instr> {
    if i.Block? then i.body
    else if i.ProcedureInvoke? && tables != [] then
      var p := tables[|tables| - 1].procedures;
      if i.procedure in p && p[i.procedure].ProcedureDeclaration? then p[i.procedure].body else []
    else []
  }

  lemma Executes(i: Instr, v: View, c: Control, tables: seq<Table>, h: History)
    requires Succeeds(i, tables, h) && (i.ProcedureDeclaration? ==> Execute(i, v, c).ok)
    requires tables != [] ==> v.procedures == tables[|tables| - 1].procedures
    ensures Execute(i, v, c).ok && Execute(i, v, c).control.stack == c.stack + Reverse(Pushed(i, tables))
  {
    assert Reverse([]) == [] && c.stack + [] == c.stack;
  }

  /** The next state of a run whose next instruction succeeds. */
  lemma Extend(states: seq<State>, rest: seq<Instr>, i: Instr, tables: seq<Table>, h: History, nextFrame: nat)
    returns (states': seq<State>)
    requires At(states, rest + [i], tables, h, nextFrame) && Succeeds(i, tables, h)
    ensures |states'| == |states| + 1 > 1 && states'[0] == states[0]
    ensures At(states', rest + Reverse(Pushed(i, tables)), TablesAfter(tables, i, nextFrame), Remember(h, i, nextFrame),
               nextFrame + if Enters(i) then 1 else 0)
  {
    hide Run, Started, CanStep, Execute, ApplyAll, FramesOk, IdsOk, Remember, TablesAfter, Confused, DeclaredOwn,
         HistoryOk, Tables, Reverse, ViewOf;
    var k := |states| - 1;
    var s := states[k];
    var c := s.control.(stack := s.control.stack[..|s.control.stack| - 1]);
    assert c.stack == rest;
    RunGoesOn(states, k);
    SteppedState(s);
    TablesAreNearest(states, k);
    if s.flat.frames != [] { TopView(s.flat); }
    if i.ProcedureDeclaration? { AcceptedIff(states, k); }
    Executes(i, ViewOf(s.flat), c, tables, h);
    EffectControl(i, ViewOf(s.flat), c);
    StepHistory(s, h);
    RunSnoc(states);
    states' := states + [Step(s).0];
    HistoryPrefix(states, Step(s).0, k);
  }

  /** The parts of a step. */
  lemma SteppedState(s: State)
    requires CanStep(s)
    ensures s.flat.frames != [] ==> SlotsStored(s.flat, Top(s.flat))
    ensures var c := s.control.(stack := s.control.stack[..|s.control.stack| - 1]);
      var e := Execute(NextInstr(s), ViewOf(s.flat), c);
      Step(s).1 == e.ok && (e.ok ==> Step(s).0.control == e.control)
  {
    hide FramesOk, IdsOk, Execute, ViewOf;
    ExecuteFits(NextInstr(s), s.flat, s.control.(stack := s.control.stack[..|s.control.stack| - 1]));
  }

  lemma Begin(block: Instr) returns (states: seq<State>)
    requires block.Block? && WellFormed(block)
    ensures |states| == 1 && states[0].control.stack == [block]
    ensures At(states, [] + [block], [], History([], map[]), 0)
  {
    states := [State(Flat([], map[], 0), Control([block], map[], map[], 0, []))];
    assert [block] == [] + [block];
  }

  lemma InSightSnoc(open: seq<Open>, x: Open)
    ensures InSight(open + [x]) == InSight(open) + x.own
  {
    assert (open + [x])[..|open|] == open;
  }

  lemma DoBlock(states: seq<State>, rest: seq<Instr>, i: Instr, tables: seq<Table>, h: History, nextFrame: nat)
    returns (states': seq<State>)
    requires At(states, rest + [i], tables, h, nextFrame) && i.Block?
    ensures |states'| == |states| + 1 > 1 && states'[0] == states[0]
    ensures At(states', rest + Reverse(i.body),
               tables + [Table(nextFrame, if tables == [] then map[] else tables[|tables| - 1].procedures)],
               History(h.open + [Open(nextFrame, map[])], h.last), nextFrame + 1)
  {
    hide At, Reverse;
    states' := Extend(states, rest, i, tables, h, nextFrame);
  }

  lemma DoCall(states: seq<State>, rest: seq<Instr>, i: Instr, tables: seq<Table>, t: Table, h: History, nextFrame: nat)
    returns (states': seq<State>)
    requires At(states, rest + [i], tables + [t], h, nextFrame) && i.ProcedureInvoke? && i.arguments == []
    requires i.procedure in t.procedures
    requires var p := t.procedures[i.procedure]; p.ProcedureDeclaration? && p.parameters == []
    ensures |states'| == |states| + 1 > 1 && states'[0] == states[0]
    ensures At(states', rest + Reverse(t.procedures[i.procedure].body),
               tables + [t] + [Table(nextFrame, t.procedures)],
               History(h.open + [Open(nextFrame, map[])], h.last), nextFrame + 1)
  {
    hide At, Reverse;
    states' := Extend(states, rest, i, tables + [t], h, nextFrame);
  }

  lemma DoEnd(states: seq<State>, rest: seq<Instr>, tables: seq<Table>, t: Table, h: History, o: Open, nextFrame: nat)
    returns (states': seq<State>)
    requires At(states, rest + [EndBlock], tables + [t], h.(open := h.open + [o]), nextFrame)
    ensures |states'| == |states| + 1 > 1 && states'[0] == states[0]
    ensures At(states', rest, tables, h, nextFrame)
  {
    hide At;
    states' := Extend(states, rest, EndBlock, tables + [t], h.(open := h.open + [o]), nextFrame);
    assert Reverse([]) == [] && rest + [] == rest && (tables + [t])[..|tables|] == tables && (h.open + [o])[..|h.open|] == h.open;
  }

  lemma DoDeclare(states: seq<State>, rest: seq<Instr>, i: Instr, tables: seq<Table>, t: Table, h: History, o: Open,
                  nextFrame: nat) returns (states': seq<State>)
    requires At(states, rest + [i], tables + [t], h.(open := h.open + [o]), nextFrame)
    requires i.ProcedureDeclaration? && !i.doubleParameter && !i.invalidName
    requires i.procedure !in o.own && (i.procedure in InSight(h.open) ==> InSight(h.open)[i.procedure] != i.id)
    ensures |states'| == |states| + 1 > 1 && states'[0] == states[0]
    ensures At(states', rest, tables + [t.(procedures := t.procedures[i.procedure := i])],
               History(h.open + [o.(own := o.own[i.procedure := i.id])], h.last[ObjectOf(i) := o.frame]), nextFrame)
  {
    hide At;
    InSightSnoc(h.open, o);
    var h' := h.(open := h.open + [o]);
    states' := Extend(states, rest, i, tables + [t], h', nextFrame);
    assert Reverse([]) == [] && rest + [] == rest;
    assert TablesAfter(tables + [t], i, nextFrame) == tables + [t.(procedures := t.procedures[i.procedure := i])];
    assert Remember(h', i, nextFrame).open == h.open + [o.(own := o.own[i.procedure := i.id])];
  }

  lemma ReverseTwo(a: Instr, b: Instr)
    ensures Reverse([a, b]) == [b, a]
  {
    assert [a, b][1..] == [b] && [b][1..] == [] && Reverse([]) == [];
    assert Reverse([b]) == [b];
  }

  lemma ReverseThree(a: Instr, b: Instr, c: Instr)
    ensures Reverse([a, b, c]) == [c, b, a]
  {
    assert [a, b, c][1..] == [b, c];
    ReverseTwo(b, c);
  }

  lemma ReverseFour(a: Instr, b: Instr, c: Instr, d: Instr)
    ensures Reverse([a, b, c, d]) == [d, c, b, a]
  {
    assert [a, b, c, d][1..] == [b, c, d];
    ReverseThree(b, c, d);
  }

  /** A run of the program that comes to the declaration, which is then accepted exactly if its
      name is already declared in the frame on top. */
  ghost predicate GoesWrong(states: seq<State>, program: Instr, i: Instr, accepted: bool) {
    && Run(states) && Started(states[0]) && states[0].control.stack == [program]
    && var k := |states| - 1;
    && states[k].control.stack != [] && NextInstr(states[k]) == i && i.ProcedureDeclaration? && CanStep(states[k])
    && (DeclaredOwn(HistoryOf(states, k), i.procedure) <==> accepted) && Step(states[k]).1 == accepted
  }

  // ----- a procedure that declares another one and calls itself

  function Empty(number: nat): Instr { ProcedureDeclaration(number, "q", [], false, false, [EndBlock]) }

  const CALL: Instr := ProcedureInvoke("p", [])

  const RECURSIVE: Instr := ProcedureDeclaration(0, "p", [], false, false, [Empty(0), CALL, EndBlock])

  const CALLING: Instr := Block([RECURSIVE, CALL, EndBlock])

  lemma ClosedThree(a: Instr, b: Instr)
    requires WellFormed(a) && WellFormed(b) && a != EndBlock && b != EndBlock
    ensures Closed([a, b, EndBlock]) && Closed([a, EndBlock]) && Closed([EndBlock])
  {
  }

  /** The state is at a declaration that is not judged by its frame. */
  lemma Misjudged(states: seq<State>, rest: seq<Instr>, i: Instr, tables: seq<Table>, h: History, nextFrame: nat)
    requires At(states, rest + [i], tables, h, nextFrame) && i.ProcedureDeclaration? && Confused(h, i)
    requires !i.doubleParameter && !i.invalidName
    ensures var k := |states| - 1;
      && Run(states) && Started(states[0]) && HistoryOf(states, k) == h
      && states[k].control.stack != [] && NextInstr(states[k]) == i && CanStep(states[k])
      && (Step(states[k]).1 <==> DeclaredOwn(h, i.procedure))
  {
    hide Run, Started, HistoryOf, CanStep, Step, Confused, DeclaredOwn, Tables;
    AcceptedIff(states, |states| - 1);
  }

  /** In the inner call q is not declared yet, and is refused. */
  lemma RecursiveDeclarationRefused()
    ensures exists states :: GoesWrong(states, CALLING, Empty(0), false)
  {
    hide At, Run, Started, HistoryOf, Step, CanStep, Reverse;
    ClosedThree(CALL, CALL);
    ClosedThree(Empty(0), CALL);
    ClosedThree(RECURSIVE, CALL);
    ReverseThree(RECURSIVE, CALL, EndBlock);
    ReverseThree(Empty(0), CALL, EndBlock);
    var p, q := RECURSIVE, Empty(0);
    var one, two := map["p" := p], map["p" := p, "q" := q];
    var f0, f1, f2 := Table(0, one), Table(1, two), Table(2, two);
    var o0, o1, o2 := Open(0, map["p" := 0]), Open(1, map["q" := 0]), Open(2, map[]);
    var states := Begin(CALLING);
    states := DoBlock(states, [], CALLING, [], History([], map[]), 0);
    assert [] + Reverse(CALLING.body) == [EndBlock, CALL] + [p];
    NothingInSight();
    states := DoDeclare(states, [EndBlock, CALL], p, [], Table(0, map[]), History([], map[]), Open(0, map[]), 1);
    assert [EndBlock, CALL] == [EndBlock] + [CALL];
    states := DoCall(states, [EndBlock], CALL, [], f0, History([] + [o0], map[("p", 0) := 0]), 1);
    var rest := [EndBlock] + [EndBlock, CALL];
    assert [EndBlock] + Reverse(p.body) == rest + [q];
    InSightSnoc([], o0);
    states := DoDeclare(states, rest, q, [] + [f0], Table(1, one), History([] + [o0], map[("p", 0) := 0]), Open(1, map[]), 2);
    var last := map[("p", 0) := 0, ("q", 0) := 1];
    assert rest == [EndBlock, EndBlock] + [CALL];
    states := DoCall(states, [EndBlock, EndBlock], CALL, [] + [f0], f1, History([] + [o0] + [o1], last), 2);
    rest := [EndBlock, EndBlock] + [EndBlock, CALL];
    assert [EndBlock, EndBlock] + Reverse(p.body) == rest + [q];
    InSightSnoc([] + [o0], o1);
    InSightSnoc([] + [o0] + [o1], o2);
    Misjudged(states, rest, q, [] + [f0] + [f1] + [f2], History([] + [o0] + [o1] + [o2], last), 3);
    assert GoesWrong(states, CALLING, q, false);
  }

  // ----- one declaration in two places

  const INNER: Instr := Block([Empty(0), EndBlock])

  const MIDDLE: Instr := Block([Empty(1), INNER, EndBlock])

  const SHARING: Instr := Block([Empty(0), MIDDLE, Empty(2), EndBlock])

  lemma SharingFormed()
    ensures WellFormed(SHARING)
    ensures Reverse(SHARING.body) == [EndBlock, Empty(2), MIDDLE] + [Empty(0)]
    ensures Reverse(MIDDLE.body) == [EndBlock, INNER] + [Empty(1)]
    ensures Reverse(INNER.body) == [EndBlock] + [Empty(0)]
  {
    ClosedThree(Empty(0), Empty(0));
    ClosedThree(Empty(1), INNER);
    ReverseFour(Empty(0), MIDDLE, Empty(2), EndBlock);
    ReverseThree(Empty(1), INNER, EndBlock);
    ReverseTwo(Empty(0), EndBlock);
    var body := SHARING.body;
    forall k | 0 <= k < |body| - 1 ensures body[k] != EndBlock && WellFormed(body[k]) {
      assert body[k] == Empty(0) || body[k] == MIDDLE || body[k] == Empty(2);
    }
  }

  /** The same object is declared again two blocks further in. The outer frame, which it gave its
      q to, then takes a second declaration of q. */
  lemma SecondDeclarationAccepted()
    ensures exists states :: GoesWrong(states, SHARING, Empty(2), true)
  {
    hide At, Run, Started, HistoryOf, Step, CanStep, Reverse, WellFormed;
    SharingFormed();
    var a, c := Empty(0), Empty(1);
    var f0, f1 := Table(0, map["q" := a]), Table(1, map["q" := c]);
    var o0, o1, o2 := Open(0, map["q" := 0]), Open(1, map["q" := 1]), Open(2, map["q" := 0]);
    var last0, last1, last2 := map[("q", 0) := 0], map[("q", 0) := 0, ("q", 1) := 1], map[("q", 0) := 2, ("q", 1) := 1];
    var outer := [EndBlock, Empty(2)];
    assert f0.procedures["q" := c] == f1.procedures && f1.procedures["q" := a] == f0.procedures;
    assert last0[("q", 1) := 1] == last1 && last1[("q", 0) := 2] == last2;
    NothingInSight();
    InSightSnoc([], o0);
    InSightSnoc([] + [o0], o1);
    var states := Begin(SHARING);
    states := DoBlock(states, [], SHARING, [], History([], map[]), 0);
    assert [] + Reverse(SHARING.body) == (outer + [MIDDLE]) + [a];
    states := DoDeclare(states, outer + [MIDDLE], a, [], Table(0, map[]), History([], map[]), Open(0, map[]), 1);
    states := DoBlock(states, outer, MIDDLE, [] + [f0], History([] + [o0], last0), 1);
    assert outer + Reverse(MIDDLE.body) == (outer + [EndBlock, INNER]) + [c];
    states := DoDeclare(states, outer + [EndBlock, INNER], c, [] + [f0], Table(1, map["q" := a]), History([] + [o0], last0),
                        Open(1, map[]), 2);
    assert outer + [EndBlock, INNER] == (outer + [EndBlock]) + [INNER];
    states := DoBlock(states, outer + [EndBlock], INNER, [] + [f0] + [f1], History([] + [o0] + [o1], last1), 2);
    assert (outer + [EndBlock]) + Reverse(INNER.body) == (outer + [EndBlock] + [EndBlock]) + [a];
    states := DoDeclare(states, outer + [EndBlock] + [EndBlock], a, [] + [f0] + [f1], Table(2, map["q" := c]),
                        History([] + [o0] + [o1], last1), Open(2, map[]), 3);
    states := DoEnd(states, outer + [EndBlock], [] + [f0] + [f1], Table(2, map["q" := a]),
                    History([] + [o0] + [o1], last2), o2, 3);
    states := DoEnd(states, outer, [] + [f0], f1, History([] + [o0], last2), o1, 3);
    assert outer == [EndBlock] + [Empty(2)];
    Misjudged(states, [EndBlock], Empty(2), [] + [f0], History([] + [o0], last2), 3);
    assert GoesWrong(states, SHARING, Empty(2), true);
  }
}
