/** Which procedures are in sight, and when a declaration is refused. The machine keeps flat
    tables, copied on entry, and lets every declaration object remember the frame in which it
    was last executed. Here a run is replayed on what a reader of the program would keep: the
    open frames with the names declared in each. */
module MacchiatoProcedures {
  import opened MacchiatoCode
  import opened Prelude
  import opened Macchiato
  import opened MacchiatoMachine

  /** An open frame and the objects that declared its own procedures. */
  datatype Open = Open(frame: nat, own: map<string, nat>)

  /** The open frames, and the frame in which each declaration was executed last. */
  datatype History = History(open: seq<Open>, last: map<Object, nat>)

  /** The object in sight under each name: inner frames hide outer ones. */
  function InSight(open: seq<Open>): map<string, nat> {
    if open == [] then map[] else InSight(open[..|open| - 1]) + open[|open| - 1].own
  }

  predicate Enters(i: Instr) {
    i.Block? || i.ForLoop? || i.ProcedureInvoke?
  }

  /** What an instruction that succeeds adds to the history. */
  function Remember(h: History, i: Instr, nextFrame: nat): History {
    if Enters(i) then h.(open := h.open + [Open(nextFrame, map[])])
    else if h.open == [] then h
    else
      var n := |h.open| - 1;
      if i.EndBlock? then h.(open := h.open[..n])
      else if i.ProcedureDeclaration? then
        History(h.open[n := h.open[n].(own := h.open[n].own[i.procedure := i.id])], h.last[ObjectOf(i) := h.open[n].frame])
      else h
  }

  function NextInstr(s: State): Instr
    requires s.control.stack != []
  {
    s.control.stack[|s.control.stack| - 1]
  }

  ghost function HistoryOf(states: seq<State>, k: nat): History
    requires Run(states) && k < |states|
  {
    if k == 0 then History([], map[])
    else
      RunStep(states, k - 1);
      Remember(HistoryOf(states, k - 1), NextInstr(states[k - 1]), states[k - 1].control.nextFrame)
  }

  // ----- what the machine keeps of it

  datatype Table = Table(frame: nat, procedures: map<string, Instr>)

  function Tables(s: Flat): (t: seq<Table>)
    ensures |t| == |s.frames|
  {
    seq(|s.frames|, m requires 0 <= m < |s.frames| => Table(s.frames[m].id, s.frames[m].procedures))
  }

  /** The procedures of a frame are the nearest declarations among the frames below and its own. */
  ghost predicate TableOk(t: Table, h: History, m: nat)
    requires m < |h.open|
  {
    && t.frame == h.open[m].frame
    && t.procedures.Keys == InSight(h.open[..m + 1]).Keys
    && forall q :: q in t.procedures ==>
         t.procedures[q].ProcedureDeclaration? && ObjectOf(t.procedures[q]) == (q, InSight(h.open[..m + 1])[q])
  }

  /** Names declared in an open frame were executed, and who was last executed there declared there. */
  ghost predicate OpenOk(h: History, m: nat)
    requires m < |h.open|
  {
    && (forall q :: q in h.open[m].own ==> (q, h.open[m].own[q]) in h.last)
    && (forall o: Object :: o in h.last && h.last[o] == h.open[m].frame ==> o.0 in h.open[m].own)
  }

  ghost predicate LastOk(c: Control, h: History) {
    && (forall o :: o in h.last ==> o in c.declaredIn && c.declaredIn[o] == h.last[o] < c.nextFrame)
    && (forall m :: 0 <= m < |h.open| ==> h.open[m].frame < c.nextFrame)
    && (forall m, n :: 0 <= m < n < |h.open| ==> h.open[m].frame < h.open[n].frame)
  }

  ghost predicate HistoryOk(tables: seq<Table>, c: Control, h: History) {
    && |tables| == |h.open| && LastOk(c, h)
    && (forall m: nat :: m < |h.open| ==> TableOk(tables[m], h, m))
    && (forall m: nat :: m < |h.open| ==> OpenOk(h, m))
  }

  // ----- what a step does to the tables

  lemma {:induction false} OpsTables(ops: seq<Op>, s: Flat)
    requires AppliesAll(ops, s)
    requires forall op :: op in ops ==> op.NewVariable? || op.SetVariable? || op.NextIteration?
    ensures Tables(ApplyAll(ops, s)) == Tables(s)
    decreases |ops|
  {
    if ops != [] {
      assert ops[0] in ops;
      assert Tables(Apply(ops[0], s)) == Tables(s);
      OpsTables(ops[1..], Apply(ops[0], s));
    }
  }

  lemma EnterTables(ops: seq<Op>, s: Flat, id: nat)
    requires AppliesAll([Enter(id)] + ops, s)
    requires forall op :: op in ops ==> op.NewVariable? || op.NextIteration?
    ensures Tables(ApplyAll([Enter(id)] + ops, s)) ==
      Tables(s) + [Table(id, if s.frames == [] then map[] else Top(s).procedures)]
  {
    assert ([Enter(id)] + ops)[1..] == ops;
    OpsTables(ops, Apply(Enter(id), s));
    assert Tables(Apply(Enter(id), s)) == Tables(s) + [Table(id, if s.frames == [] then map[] else Top(s).procedures)];
  }

  /** What an instruction that succeeds does to the tables. */
  function TablesAfter(tables: seq<Table>, i: Instr, nextFrame: nat): seq<Table> {
    if Enters(i) then tables + [Table(nextFrame, if tables == [] then map[] else tables[|tables| - 1].procedures)]
    else if tables == [] then tables
    else
      var n := |tables| - 1;
      if i.EndBlock? then tables[..n]
      else if i.ProcedureDeclaration? then
        tables[n := tables[n].(procedures := tables[n].procedures[i.procedure := i])]
      else tables
  }

  lemma EnteringOps(i: Instr, v: View, c: Control)
    requires Enters(i) && Execute(i, v, c).ok
    ensures var ops := Execute(i, v, c).ops;
      && ops != [] && ops == [Enter(c.nextFrame)] + ops[1..]
      && forall op :: op in ops[1..] ==> op.NewVariable? || op.NextIteration?
  {
    hide Evaluate, Reverse, WithFirst;
  }

  lemma OtherOps(i: Instr, v: View, c: Control)
    requires !Enters(i) && Execute(i, v, c).ok
    ensures var ops := Execute(i, v, c).ops;
      if i.EndBlock? then ops == [Leave]
      else if i.ProcedureDeclaration? then ops == [SetProcedure(i.procedure, i)]
      else forall op :: op in ops ==> op.NewVariable? || op.SetVariable? || op.NextIteration?
  {
    hide Evaluate, Reverse, WithFirst, Holds;
  }

  lemma EffectTables(i: Instr, s: Flat, c: Control)
    requires FramesOk(s) && Ready(i, s)
    ensures s.frames != [] ==> SlotsStored(s, Top(s))
    ensures var e := Execute(i, ViewOf(s), c);
      && AppliesAll(e.ops, s)
      && (e.ok ==> Tables(ApplyAll(e.ops, s)) == TablesAfter(Tables(s), i, c.nextFrame))
  {
    hide FramesOk, Execute, ViewOf;
    ExecuteFits(i, s, c);
    var e := Execute(i, ViewOf(s), c);
    if e.ok && Enters(i) {
      EnteringOps(i, ViewOf(s), c);
      EnterTables(e.ops[1..], s, c.nextFrame);
    } else if e.ok {
      OtherOps(i, ViewOf(s), c);
      if i.EndBlock? {
        OneApplies(Leave, s);
        assert Tables(Apply(Leave, s)) == Tables(s)[..|s.frames| - 1];
      } else if i.ProcedureDeclaration? {
        OneApplies(SetProcedure(i.procedure, i), s);
        assert Tables(Apply(SetProcedure(i.procedure, i), s)) == TablesAfter(Tables(s), i, c.nextFrame);
      } else {
        OpsTables(e.ops, s);
      }
    }
  }

  lemma EffectControl(i: Instr, v: View, c: Control)
    requires Execute(i, v, c).ok
    ensures var d := Execute(i, v, c).control;
      && d.nextFrame == c.nextFrame + (if Enters(i) then 1 else 0)
      && d.declaredIn == if i.ProcedureDeclaration? then c.declaredIn[ObjectOf(i) := v.id] else c.declaredIn
  {
    hide Evaluate, Reverse, Bound, WithFirst, Holds;
  }

  // ----- the history is what the machine keeps

  /** The control after an instruction, as far as declarations are concerned. */
  predicate Remembered(c: Control, d: Control, i: Instr, tables: seq<Table>) {
    && d.nextFrame == c.nextFrame + (if Enters(i) then 1 else 0)
    && d.declaredIn == if i.ProcedureDeclaration? && tables != []
                       then c.declaredIn[ObjectOf(i) := tables[|tables| - 1].frame] else c.declaredIn
  }

  lemma EnterHistory(tables: seq<Table>, c: Control, d: Control, h: History, i: Instr)
    requires HistoryOk(tables, c, h) && Enters(i) && Remembered(c, d, i, tables)
    ensures HistoryOk(TablesAfter(tables, i, c.nextFrame), d, Remember(h, i, c.nextFrame))
  {
    hide InSight;
    var h', tables' := Remember(h, i, c.nextFrame), TablesAfter(tables, i, c.nextFrame);
    var n := |h.open|;
    EmptyInSight(h'.open[..n + 1]);
    assert h'.open[..n + 1][..n] == h.open == h.open[..n];
    if n == 0 { NothingInSight(); }
    forall m: nat | m <= n ensures TableOk(tables'[m], h', m) && OpenOk(h', m) {
      if m < n {
        assert TableOk(tables[m], h, m) && OpenOk(h, m);
        assert h'.open[..m + 1] == h.open[..m + 1];
      } else if n > 0 {
        assert TableOk(tables[n - 1], h, n - 1);
      }
    }
  }

  lemma EmptyInSight(open: seq<Open>)
    requires open != [] && open[|open| - 1].own == map[]
    ensures InSight(open) == InSight(open[..|open| - 1])
  {
  }

  lemma NothingInSight()
    ensures InSight([]) == map[]
  {
  }

  lemma LeaveHistory(tables: seq<Table>, c: Control, d: Control, h: History)
    requires HistoryOk(tables, c, h) && Remembered(c, d, EndBlock, tables) && tables != []
    ensures HistoryOk(TablesAfter(tables, EndBlock, c.nextFrame), d, Remember(h, EndBlock, c.nextFrame))
  {
    hide InSight;
    var h', n := Remember(h, EndBlock, c.nextFrame), |h.open| - 1;
    forall m: nat | m < n ensures TableOk(tables[m], h', m) && OpenOk(h', m) {
      assert TableOk(tables[m], h, m) && OpenOk(h, m);
      assert h'.open[..m + 1] == h.open[..m + 1];
    }
  }

  lemma OwnInSight(open: seq<Open>, q: string, number: nat)
    requires open != []
    ensures var n := |open| - 1;
      InSight(open[n := open[n].(own := open[n].own[q := number])]) == InSight(open)[q := number]
  {
    var n := |open| - 1;
    assert open[n := open[n].(own := open[n].own[q := number])][..n] == open[..n];
  }

  lemma DeclareHistory(tables: seq<Table>, c: Control, d: Control, h: History, i: Instr)
    requires HistoryOk(tables, c, h) && Remembered(c, d, i, tables) && tables != [] && i.ProcedureDeclaration?
    ensures HistoryOk(TablesAfter(tables, i, c.nextFrame), d, Remember(h, i, c.nextFrame))
  {
    hide InSight, TableOk, OpenOk;
    var h', tables' := Remember(h, i, c.nextFrame), TablesAfter(tables, i, c.nextFrame);
    var n := |h.open| - 1;
    assert TableOk(tables[n], h, n) && OpenOk(h, n);
    DeclaredTable(tables[n], h, i, c.nextFrame);
    forall m: nat | m < n ensures TableOk(tables'[m], h', m) && OpenOk(h', m) {
      assert TableOk(tables[m], h, m) && OpenOk(h, m);
      assert h'.open[..m + 1] == h.open[..m + 1];
      TableBelow(tables[m], h, h', m, i, h.open[n].frame);
    }
    FrameTop(tables[n], h);
    assert LastOk(d, h');
  }

  lemma FrameTop(t: Table, h: History)
    requires h.open != [] && TableOk(t, h, |h.open| - 1)
    ensures t.frame == h.open[|h.open| - 1].frame
  {
  }

  lemma DeclaredTable(t: Table, h: History, i: Instr, nextFrame: nat)
    requires h.open != [] && i.ProcedureDeclaration? && TableOk(t, h, |h.open| - 1) && OpenOk(h, |h.open| - 1)
    ensures var h' := Remember(h, i, nextFrame); var n := |h.open| - 1;
      TableOk(t.(procedures := t.procedures[i.procedure := i]), h', n) && OpenOk(h', n)
  {
    hide InSight;
    var h', n := Remember(h, i, nextFrame), |h.open| - 1;
    OwnInSight(h.open, i.procedure, i.id);
    assert h.open[..n + 1] == h.open && h'.open[..n + 1] == h'.open;
  }

  /** A frame further out does not notice. */
  lemma TableBelow(t: Table, h: History, h': History, m: nat, i: Instr, frame: nat)
    requires m < |h.open| == |h'.open| && h'.open[..m + 1] == h.open[..m + 1] && TableOk(t, h, m) && OpenOk(h, m)
    requires i.ProcedureDeclaration? && h'.last == h.last[ObjectOf(i) := frame] && frame != h.open[m].frame
    ensures TableOk(t, h', m) && OpenOk(h', m)
  {
    hide InSight;
    assert h'.open[m] == h'.open[..m + 1][m] && h.open[m] == h.open[..m + 1][m];
  }

  lemma OtherHistory(tables: seq<Table>, c: Control, d: Control, h: History)
    requires HistoryOk(tables, c, h) && d.nextFrame == c.nextFrame && d.declaredIn == c.declaredIn
    ensures HistoryOk(tables, d, h)
  {
    hide TableOk, OpenOk;
  }

  lemma StepHistory(s: State, h: History)
    requires CanStep(s) && Step(s).1 && HistoryOk(Tables(s.flat), s.control, h)
    ensures var t := Step(s).0;
      && HistoryOk(Tables(t.flat), t.control, Remember(h, NextInstr(s), s.control.nextFrame))
      && Tables(t.flat) == TablesAfter(Tables(s.flat), NextInstr(s), s.control.nextFrame)
  {
    hide FramesOk, IdsOk, Execute, ApplyAll, AppliesAll, HistoryOk, Remember, TablesAfter, ViewOf;
    var i, t := NextInstr(s), Step(s).0;
    var c := s.control.(stack := s.control.stack[..|s.control.stack| - 1]);
    EffectTables(i, s.flat, c);
    EffectControl(i, ViewOf(s.flat), c);
    if s.flat.frames != [] { TopView(s.flat); }
    OtherHistory(Tables(s.flat), s.control, c, h);
    assert Remembered(c, t.control, i, Tables(s.flat));
    if Enters(i) {
      EnterHistory(Tables(s.flat), c, t.control, h, i);
    } else if i.EndBlock? {
      LeaveHistory(Tables(s.flat), c, t.control, h);
    } else if i.ProcedureDeclaration? {
      DeclareHistory(Tables(s.flat), c, t.control, h, i);
    } else {
      OtherHistory(Tables(s.flat), c, t.control, h);
      OtherSame(Tables(s.flat), h, i, c.nextFrame);
    }
  }

  lemma OtherSame(tables: seq<Table>, h: History, i: Instr, nextFrame: nat)
    requires !Enters(i) && !i.EndBlock? && !i.ProcedureDeclaration?
    ensures TablesAfter(tables, i, nextFrame) == tables && Remember(h, i, nextFrame) == h
  {
  }

  lemma TopView(s: Flat)
    requires s.frames != [] && SlotsStored(s, Top(s))
    ensures ViewOf(s).id == Tables(s)[|s.frames| - 1].frame && ViewOf(s).procedures == Tables(s)[|s.frames| - 1].procedures
  {
  }

  /** In every run the flat table of a frame holds, under each name, the object that declared it
      in the nearest open frame; and objects remember the frame in which they were executed last. */
  lemma {:induction false} TablesAreNearest(states: seq<State>, k: nat)
    requires Run(states) && Started(states[0]) && k < |states|
    ensures HistoryOk(Tables(states[k].flat), states[k].control, HistoryOf(states, k))
  {
    hide HistoryOk, Step, CanStep, Tables, Remember;
    if k == 0 {
      StartHistory(states[0]);
    } else {
      TablesAreNearest(states, k - 1);
      RunStep(states, k - 1);
      StepHistory(states[k - 1], HistoryOf(states, k - 1));
    }
  }

  lemma StartHistory(s: State)
    requires Started(s)
    ensures HistoryOk(Tables(s.flat), s.control, History([], map[]))
  {
  }

  // ----- when a declaration is refused

  /** The name is declared in the frame on top. */
  predicate DeclaredOwn(h: History, q: string) {
    h.open != [] && q in h.open[|h.open| - 1].own
  }

  /** The object that declared the name in the frame on top was executed again, in another frame,
      since; or, with no declaration in the frame on top, the object to be executed is itself the
      one in sight from an outer frame. */
  predicate Confused(h: History, i: Instr)
    requires i.ProcedureDeclaration?
  {
    && h.open != []
    && var top, q := h.open[|h.open| - 1], i.procedure;
       if q in top.own then
         var o := (q, top.own[q]);
         o != ObjectOf(i) && o in h.last && h.last[o] != top.frame
       else
         q in InSight(h.open) && InSight(h.open)[q] == i.id
  }

  lemma {:induction false} InSightOwned(open: seq<Open>, q: string) returns (m: nat)
    requires q in InSight(open)
    ensures m < |open| && q in open[m].own && open[m].own[q] == InSight(open)[q]
    ensures q !in open[|open| - 1].own ==> m < |open| - 1
  {
    m := |open| - 1;
    if q !in open[m].own { m := InSightOwned(open[..m], q); }
  }

  lemma DecisionAt(tables: seq<Table>, c: Control, h: History, i: Instr, v: View)
    requires HistoryOk(tables, c, h) && tables != [] && i.ProcedureDeclaration? && !i.doubleParameter && !i.invalidName
    requires v.procedures == tables[|tables| - 1].procedures && v.id == tables[|tables| - 1].frame
    ensures (Execute(i, v, c).ok <==> !DeclaredOwn(h, i.procedure)) <==> !Confused(h, i)
  {
    var n, q := |tables| - 1, i.procedure;
    assert TableOk(tables[n], h, n) && OpenOk(h, n);
    assert h.open[..n + 1] == h.open;
    if q in InSight(h.open) {
      var m := InSightOwned(h.open, q);
      assert OpenOk(h, m);
    }
  }

  /** A valid declaration is accepted exactly when its name is not yet declared in the frame on
      top, as the comment of the class promises, if and only if the objects are not confused. */
  lemma AcceptedIff(states: seq<State>, k: nat)
    requires Run(states) && Started(states[0]) && k < |states| && states[k].control.stack != []
    requires var i := NextInstr(states[k]); i.ProcedureDeclaration? && !i.doubleParameter && !i.invalidName
    ensures CanStep(states[k])
    ensures (Step(states[k]).1 <==> !DeclaredOwn(HistoryOf(states, k), NextInstr(states[k]).procedure))
       <==> !Confused(HistoryOf(states, k), NextInstr(states[k]))
  {
    hide Run, Started, HistoryOk, Execute, ApplyAll, Confused, DeclaredOwn, FramesOk, IdsOk;
    var s, i := states[k], NextInstr(states[k]);
    var c := s.control.(stack := s.control.stack[..|s.control.stack| - 1]);
    RunGoesOn(states, k);
    TablesAreNearest(states, k);
    ExecuteFits(i, s.flat, c);
    TopView(s.flat);
    OtherHistory(Tables(s.flat), s.control, c, HistoryOf(states, k));
    DecisionAt(Tables(s.flat), c, HistoryOf(states, k), i, ViewOf(s.flat));
  }

  /** An outer frame that is still open holds this very object. */
  ghost predicate Reentered(h: History, i: Instr)
    requires i.ProcedureDeclaration?
  {
    exists m: nat :: m < |h.open| - 1 && i.procedure in h.open[m].own && h.open[m].own[i.procedure] == i.id
  }

  ghost predicate NeverReentered(states: seq<State>, k: nat)
    requires Run(states) && k < |states|
  {
    forall j: nat :: j <= k && states[j].control.stack != [] && NextInstr(states[j]).ProcedureDeclaration? ==>
      !Reentered(HistoryOf(states, j), NextInstr(states[j]))
  }

  /** Every object that declared a name of an open frame was last executed there. */
  ghost predicate Faithful(h: History) {
    forall m, q :: 0 <= m < |h.open| && q in h.open[m].own ==>
      (q, h.open[m].own[q]) in h.last && h.last[(q, h.open[m].own[q])] == h.open[m].frame
  }

  lemma RememberFaithful(h: History, i: Instr, nextFrame: nat)
    requires Faithful(h) && (i.ProcedureDeclaration? ==> !Reentered(h, i))
    ensures Faithful(Remember(h, i, nextFrame))
  {
  }

  lemma {:induction false} RunFaithful(states: seq<State>, k: nat)
    requires Run(states) && k < |states| && (k > 0 ==> NeverReentered(states, k - 1))
    ensures Faithful(HistoryOf(states, k))
  {
    hide Run, Faithful, Remember, Reentered;
    if k == 0 {
      NobodyUnfaithful();
    } else {
      RunStep(states, k - 1);
      assert k > 1 ==> NeverReentered(states, k - 2);
      RunFaithful(states, k - 1);
      RememberFaithful(HistoryOf(states, k - 1), NextInstr(states[k - 1]), states[k - 1].control.nextFrame);
    }
  }

  lemma NobodyUnfaithful()
    ensures Faithful(History([], map[]))
  {
  }

  lemma ConfusedReenters(h: History, i: Instr)
    requires i.ProcedureDeclaration? && Faithful(h) && Confused(h, i)
    ensures Reentered(h, i)
  {
    var top, q := h.open[|h.open| - 1], i.procedure;
    assert q !in top.own;
    var m := InSightOwned(h.open, q);
  }

  /** As long as no declaration is executed while an outer open frame holds it, every declaration
      is accepted exactly when its name is not yet declared in its frame. */
  lemma AcceptedWhenNew(states: seq<State>, k: nat)
    requires Run(states) && Started(states[0]) && k < |states| && states[k].control.stack != []
    requires var i := NextInstr(states[k]); i.ProcedureDeclaration? && !i.doubleParameter && !i.invalidName
    requires NeverReentered(states, k)
    ensures CanStep(states[k])
    ensures Step(states[k]).1 <==> !DeclaredOwn(HistoryOf(states, k), NextInstr(states[k]).procedure)
  {
    hide Run, Started, CanStep, Step, HistoryOf, DeclaredOwn;
    var h, i := HistoryOf(states, k), NextInstr(states[k]);
    AcceptedIff(states, k);
    assert k > 0 ==> NeverReentered(states, k - 1);
    RunFaithful(states, k);
    if Confused(h, i) { ConfusedReenters(h, i); }
  }
}
