/** Steps and runs of the Macchiato machine: they refine those of the chain of scopes, frames
    and open blocks stay in balance, and a finished block leaves the outer frames as they were. */
module MacchiatoMachine {
  import opened MacchiatoCode
  import opened Prelude
  import opened Macchiato

  datatype State = State(flat: Flat, control: Control)

  datatype ChainState = ChainState(chain: Chain, control: Control)

  ghost predicate Sound(s: State) {
    FramesOk(s.flat) && IdsOk(s.flat, s.control.nextFrame)
  }

  // ----- several changes in a row

  predicate AppliesAll(ops: seq<Op>, s: Flat)
    decreases |ops|
  {
    ops == [] || (Applies(ops[0], s) && AppliesAll(ops[1..], Apply(ops[0], s)))
  }

  function ApplyAll(ops: seq<Op>, s: Flat): Flat
    requires AppliesAll(ops, s)
    decreases |ops|
  {
    if ops == [] then s else ApplyAll(ops[1..], Apply(ops[0], s))
  }

  predicate AppliesAllChain(ops: seq<Op>, c: Chain)
    decreases |ops|
  {
    ops == [] || (AppliesChain(ops[0], c) && AppliesAllChain(ops[1..], ApplyChain(ops[0], c)))
  }

  function ApplyAllChain(ops: seq<Op>, c: Chain): Chain
    requires AppliesAllChain(ops, c)
    decreases |ops|
  {
    if ops == [] then c else ApplyAllChain(ops[1..], ApplyChain(ops[0], c))
  }

  /** The frame a row of changes enters, if any, is entered first and gets the next number. */
  predicate Numbered(ops: seq<Op>, nextFrame: nat) {
    && (forall i :: 1 <= i < |ops| ==> !ops[i].Enter?)
    && (ops != [] && ops[0].Enter? ==> ops[0].id == nextFrame)
  }

  function Entered(ops: seq<Op>): nat {
    if ops != [] && ops[0].Enter? then 1 else 0
  }

  lemma {:induction false} OpsCommute(ops: seq<Op>, s: Flat, nextFrame: nat)
    requires FramesOk(s) && IdsOk(s, nextFrame) && AppliesAll(ops, s) && Numbered(ops, nextFrame)
    ensures var t := ApplyAll(ops, s);
      && FramesOk(t) && IdsOk(t, nextFrame + Entered(ops))
      && AppliesAllChain(ops, Abs(s)) && Abs(t) == ApplyAllChain(ops, Abs(s))
    decreases |ops|
  {
    hide FramesOk, IdsOk, Abs, Apply, ApplyChain, Applies, AppliesChain;
    if ops != [] {
      OpCommutes(ops[0], s, nextFrame);
      OpsCommute(ops[1..], Apply(ops[0], s), nextFrame + Entered(ops));
    }
  }

  // ----- what an instruction does can be done

  lemma {:induction false} BindingsApply(ops: seq<Op>, s: Flat)
    requires s.frames != [] && forall op :: op in ops ==> op.NewVariable?
    ensures AppliesAll(ops, s) && |ApplyAll(ops, s).frames| == |s.frames|
    decreases |ops|
  {
    if ops != [] {
      assert ops[0] in ops;
      BindingsApply(ops[1..], Apply(ops[0], s));
    }
  }

  lemma OneApplies(op: Op, s: Flat)
    requires Applies(op, s)
    ensures AppliesAll([op], s) && ApplyAll([op], s) == Apply(op, s)
  {
    assert [op][1..] == [];
  }

  lemma ManyApply(op: Op, ops: seq<Op>, s: Flat)
    requires Applies(op, s) && AppliesAll(ops, Apply(op, s))
    ensures AppliesAll([op] + ops, s) && ApplyAll([op] + ops, s) == ApplyAll(ops, Apply(op, s))
  {
    assert ([op] + ops)[1..] == ops;
  }

  /** Frames gained less frames lost. */
  function Gained(ops: seq<Op>): int {
    if ops == [] then 0 else if ops[0].Enter? then 1 else if ops[0].Leave? then -1 else 0
  }

  lemma EnterIs(id: nat, s: Flat)
    ensures Applies(Enter(id), s) && |Apply(Enter(id), s).frames| == |s.frames| + 1
  {
  }

  predicate Ready(i: Instr, s: Flat) {
    i.Block? || s.frames != []
  }

  ghost predicate EffectFits(i: Instr, s: Flat, c: Control, e: Effect) {
    && AppliesAll(e.ops, s) && Numbered(e.ops, c.nextFrame)
    && e.control.nextFrame == c.nextFrame + Entered(e.ops)
    && |ApplyAll(e.ops, s).frames| == |s.frames| + Gained(e.ops)
  }

  lemma EnteringFits(i: Instr, s: Flat, c: Control, e: Effect, ops: seq<Op>)
    requires e.ops == [Enter(c.nextFrame)] + ops && e.control.nextFrame == c.nextFrame + 1
    requires (forall op :: op in ops ==> op.NewVariable?) || ops == [NextIteration]
    ensures EffectFits(i, s, c, e)
  {
    EnterIs(c.nextFrame, s);
    forall k | 1 <= k < |e.ops| ensures !e.ops[k].Enter? { assert e.ops[k] == ops[k - 1] && ops[k - 1] in ops; }
    var t := Apply(Enter(c.nextFrame), s);
    if ops == [NextIteration] { OneApplies(NextIteration, t); } else { BindingsApply(ops, t); }
    ManyApply(Enter(c.nextFrame), ops, s);
  }

  lemma SimpleFits(i: Instr, s: Flat, c: Control, e: Effect)
    requires |e.ops| <= 1 && forall op :: op in e.ops ==> !op.Enter? && Applies(op, s)
    requires e.control.nextFrame == c.nextFrame
    ensures EffectFits(i, s, c, e)
  {
    if e.ops != [] {
      assert e.ops[0] in e.ops && e.ops == [e.ops[0]];
      OneApplies(e.ops[0], s);
    }
  }

  lemma ExecuteFits(i: Instr, s: Flat, c: Control)
    requires FramesOk(s) && Ready(i, s)
    ensures s.frames != [] ==> SlotsStored(s, Top(s))
    ensures EffectFits(i, s, c, Execute(i, ViewOf(s), c))
  {
    hide FramesOk, EffectFits, Evaluate, Reverse, Bound, WithFirst, Holds, EnvOf, OwnNames;
    if s.frames != [] { TopStored(s); }
    var v := ViewOf(s);
    var e := Execute(i, v, c);
    match i
    case Block(_) => EnteringFits(i, s, c, e, []);
    case ForLoop(_, _, bound) =>
      var times := Evaluate(bound, v.env);
      if times.None? { SimpleFits(i, s, c, e); }
      else { EnteringFits(i, s, c, e, if 0 < times.value then [NextIteration] else []); }
    case ProcedureInvoke(_, _) => InvokeFits(i, s, c);
    case AssignVariableValue(name, _) =>
      EnvNames(s, name);
      SimpleFits(i, s, c, e);
    case _ => SimpleFits(i, s, c, e);
  }

  lemma InvokeFits(i: Instr, s: Flat, c: Control)
    requires FramesOk(s) && i.ProcedureInvoke? && s.frames != [] && SlotsStored(s, Top(s))
    ensures EffectFits(i, s, c, Execute(i, ViewOf(s), c))
  {
    hide FramesOk, EffectFits, Evaluate, Reverse;
    var e := Execute(i, ViewOf(s), c);
    if e.ops == [] { SimpleFits(i, s, c, e); } else { EnteringFits(i, s, c, e, e.ops[1..]); }
  }

  lemma TopStored(s: Flat)
    requires FramesOk(s) && s.frames != []
    ensures SlotsStored(s, Top(s))
  {
    FrameFacts(s, |s.frames| - 1);
    Stored(s, |s.frames| - 1);
  }

  lemma EnvNames(s: Flat, name: char)
    requires s.frames != [] && SlotsStored(s, Top(s))
    ensures name in ViewOf(s).env <==> name in Top(s).slots
  {
  }

  // ----- steps

  /** The top of the instruction stack is taken off and executed; if that fails it is put back. */
  ghost function Step(s: State): (r: (State, bool))
    requires Sound(s) && s.control.stack != [] && Ready(s.control.stack[|s.control.stack| - 1], s.flat)
  {
    var n := |s.control.stack| - 1;
    var i := s.control.stack[n];
    var c := s.control.(stack := s.control.stack[..n]);
    ExecuteFits(i, s.flat, c);
    var e := Execute(i, ViewOf(s.flat), c);
    (State(ApplyAll(e.ops, s.flat), if e.ok then e.control else e.control.(stack := e.control.stack + [i])), e.ok)
  }

  ghost predicate CanStepChain(s: ChainState) {
    && s.control.stack != []
    && var n := |s.control.stack| - 1;
       AppliesAllChain(Execute(s.control.stack[n], ViewChain(s.chain), s.control.(stack := s.control.stack[..n])).ops, s.chain)
  }

  ghost function StepChain(s: ChainState): (ChainState, bool)
    requires CanStepChain(s)
  {
    var n := |s.control.stack| - 1;
    var i := s.control.stack[n];
    var e := Execute(i, ViewChain(s.chain), s.control.(stack := s.control.stack[..n]));
    (ChainState(ApplyAllChain(e.ops, s.chain), if e.ok then e.control else e.control.(stack := e.control.stack + [i])), e.ok)
  }

  ghost function AbsState(s: State): ChainState
    requires Sound(s)
  {
    ChainState(Abs(s.flat), s.control)
  }

  /** A step of the machine, failed or not, is the step of the chain of scopes. */
  lemma StepRefines(s: State)
    requires Sound(s) && s.control.stack != [] && Ready(s.control.stack[|s.control.stack| - 1], s.flat)
    ensures Sound(Step(s).0)
    ensures CanStepChain(AbsState(s)) && (AbsState(Step(s).0), Step(s).1) == StepChain(AbsState(s))
  {
    hide FramesOk, IdsOk, Abs, Execute, ViewOf, ViewChain, AppliesAll, ApplyAll, AppliesAllChain, ApplyAllChain;
    var n := |s.control.stack| - 1;
    var i := s.control.stack[n];
    var c := s.control.(stack := s.control.stack[..n]);
    ViewsAgree(s.flat);
    ExecuteFits(i, s.flat, c);
    OpsCommute(Execute(i, ViewOf(s.flat), c).ops, s.flat, c.nextFrame);
  }

  // ----- balance

  lemma {:induction false} EndsConcat(a: seq<Instr>, b: seq<Instr>)
    ensures Ends(a + b) == Ends(a) + Ends(b)
    decreases |b|
  {
    if b == [] {
      assert a + b == a;
    } else {
      assert (a + b)[..|a + b| - 1] == a + b[..|b| - 1];
      EndsConcat(a, b[..|b| - 1]);
    }
  }

  lemma {:induction false} ReverseMembers(s: seq<Instr>)
    ensures forall i :: i in Reverse(s) <==> i in s
    ensures s != [] ==> Reverse(s)[0] == s[|s| - 1]
  {
    if s != [] { ReverseMembers(s[1..]); }
  }

  lemma {:induction false} ReverseEnds(s: seq<Instr>)
    ensures Ends(Reverse(s)) == Ends(s)
  {
    if s != [] {
      ReverseEnds(s[1..]);
      assert s == [s[0]] + s[1..];
      EndsConcat([s[0]], s[1..]);
      EndsConcat(Reverse(s[1..]), [s[0]]);
    }
  }

  lemma {:induction false} NoEnds(s: seq<Instr>)
    requires forall i :: 0 <= i < |s| ==> s[i] != EndBlock
    ensures Ends(s) == 0
  {
    if s != [] { NoEnds(s[..|s| - 1]); }
  }

  predicate Good(i: Instr) {
    i == EndBlock || WellFormed(i)
  }

  /** All instructions that can still be reached are well formed. */
  ghost predicate CodeOk(s: State) {
    && (forall i :: i in s.control.stack ==> Good(i))
    && LoopsOk(s.control.loops)
    && (forall f :: f in s.flat.frames ==> ProceduresOk(f.procedures))
  }

  ghost predicate ProceduresOk(procedures: map<string, Instr>) {
    forall p :: p in procedures ==> procedures[p].ProcedureDeclaration? && WellFormed(procedures[p])
  }

  /** The context depth is the number of open blocks; while there are frames, the last
      instruction to be executed is the end of the outermost block. */
  ghost predicate Balanced(s: State) {
    && Ends(s.control.stack) == |s.flat.frames|
    && (s.control.stack != [] ==> s.control.stack[0] == EndBlock || (|s.control.stack| == 1 && s.control.stack[0].Block?))
  }

  ghost predicate Inv(s: State) {
    Sound(s) && CodeOk(s) && Balanced(s)
  }

  lemma BalancedReady(s: State)
    requires Balanced(s) && s.control.stack != []
    ensures Ready(s.control.stack[|s.control.stack| - 1], s.flat)
  {
    var stack := s.control.stack;
    if stack[0] == EndBlock {
      EndsConcat([stack[0]], stack[1..]);
      assert stack == [stack[0]] + stack[1..];
      assert Ends([stack[0]]) == 1 by { assert [stack[0]][..0] == []; }
    }
  }

  lemma ClosedEnds(body: seq<Instr>)
    requires Closed(body)
    ensures Ends(Reverse(body)) == 1 && Reverse(body)[0] == EndBlock
    ensures forall i :: i in Reverse(body) ==> Good(i)
  {
    ReverseEnds(body);
    ReverseMembers(body);
    NoEnds(body[..|body| - 1]);
    assert body == body[..|body| - 1] + [body[|body| - 1]];
  }

  lemma PlainEnds(list: seq<Instr>)
    requires Plain(list)
    ensures Ends(Reverse(list)) == 0 && forall i :: i in Reverse(list) ==> Good(i)
  {
    ReverseEnds(list);
    ReverseMembers(list);
    NoEnds(list);
  }

  /** What an instruction that succeeds leaves on the stack: the rest, then well-formed
      instructions with as many block ends as frames were entered, the first of them lowest. */
  ghost predicate Pushes(i: Instr, rest: seq<Instr>, e: Effect, pushed: seq<Instr>) {
    && e.control.stack == rest + pushed
    && (forall x :: x in pushed ==> Good(x))
    && Ends(pushed) == (if e.ops != [] && e.ops[0].Enter? then 1 else 0)
    && (e.ops != [] && e.ops[0].Enter? ==> pushed != [] && pushed[0] == EndBlock)
    && (i == EndBlock || forall k :: 0 <= k < |e.ops| ==> !e.ops[k].Leave?)
    && (i == EndBlock ==> e.ops == [Leave] && pushed == [])
    && (i.Block? ==> e.ops != [] && e.ops[0].Enter?)
  }

  ghost predicate LoopsOk(loops: map<nat, seq<Instr>>) {
    forall l :: l in loops ==> Plain(loops[l])
  }

  lemma LoopList(c: Control, loop: nat, first: Instr, last: seq<Instr>)
    requires LoopsOk(c.loops) && first != EndBlock && WellFormed(first)
    requires forall i :: i in last ==> i != EndBlock && WellFormed(i)
    ensures Plain(WithFirst(c.loops, loop, first) + last) && LoopsOk(c.loops[loop := WithFirst(c.loops, loop, first) + last])
  {
    var list := WithFirst(c.loops, loop, first) + last;
    forall i | 0 <= i < |list| ensures list[i] != EndBlock && WellFormed(list[i]) {
      if i >= |WithFirst(c.loops, loop, first)| { assert list[i] in last; }
    }
  }

  /** The instruction, executed with success, pushes what it should and keeps the lists in order. */
  lemma ExecutePushes(i: Instr, v: View, c: Control) returns (pushed: seq<Instr>)
    requires Good(i) && LoopsOk(c.loops) && ProceduresOk(v.procedures) && Execute(i, v, c).ok
    ensures Pushes(i, c.stack, Execute(i, v, c), pushed) && LoopsOk(Execute(i, v, c).control.loops)
    ensures forall op :: op in Execute(i, v, c).ops && op.SetProcedure? ==>
      op.declaration.ProcedureDeclaration? && WellFormed(op.declaration)
  {
    hide Evaluate, Reverse, WithFirst, Holds, Ends, Plain, Closed, Bound;
    EndsNone();
    assert c.stack + [] == c.stack && [EndBlock] + [] == [EndBlock];
    pushed := [];
    match i
    case Block(body) =>
      ClosedEnds(body);
      pushed := Reverse(body);
    case IfElseStatement(left, condition, right, whenTrue, whenFalse) =>
      var branch := if Holds(condition, Evaluate(left, v.env).value, Evaluate(right, v.env).value) then whenTrue else whenFalse;
      PlainEnds(branch);
      pushed := Reverse(branch);
    case ForLoop(loop, counter, bound) =>
      var times := Evaluate(bound, v.env).value;
      LoopList(c, loop, VariableDeclaration(counter, Constant(0)), [EndForLoop(loop, times, counter)]);
      var list := WithFirst(c.loops, loop, VariableDeclaration(counter, Constant(0))) + [EndForLoop(loop, times, counter)];
      OneEnd();
      PlainEnds(list);
      EndsConcat([EndBlock], Reverse(list));
      pushed := [EndBlock] + if 0 < times then Reverse(list) else [];
      assert c.stack + [EndBlock] + Reverse(list) == c.stack + ([EndBlock] + Reverse(list));
    case EndForLoop(loop, times, counter) =>
      if v.iteration < times {
        LoopList(c, loop, AssignVariableValue(counter, Constant(v.iteration)), []);
        var list := WithFirst(c.loops, loop, AssignVariableValue(counter, Constant(v.iteration)));
        assert list + [] == list;
        PlainEnds(list);
        pushed := Reverse(list);
      }
    case ProcedureInvoke(procedure, arguments) =>
      var ops := Execute(i, v, c).ops;
      var bound := Bound(v.procedures[procedure].parameters, arguments, v.env).0;
      forall k | 1 <= k < |ops| ensures !ops[k].Leave? { assert ops[k] == bound[k - 1] && bound[k - 1] in bound; }
      ClosedEnds(v.procedures[procedure].body);
      pushed := Reverse(v.procedures[procedure].body);
    case _ =>
  }

  lemma OneEnd()
    ensures Reverse([EndBlock]) == [EndBlock] && Ends([EndBlock]) == 1
  {
    assert [EndBlock][1..] == [] && [EndBlock][..0] == [];
    assert Reverse([]) == [];
  }

  lemma EndsNone()
    ensures Ends([]) == 0
  {
  }

  // ----- runs without exceptions

  ghost predicate CanStep(s: State) {
    Sound(s) && s.control.stack != [] && Ready(s.control.stack[|s.control.stack| - 1], s.flat)
  }

  ghost predicate FramesProcedures(s: Flat) {
    forall f :: f in s.frames ==> ProceduresOk(f.procedures)
  }

  lemma {:induction false} OpsProcedures(ops: seq<Op>, s: Flat)
    requires AppliesAll(ops, s) && FramesProcedures(s)
    requires forall op :: op in ops && op.SetProcedure? ==> op.declaration.ProcedureDeclaration? && WellFormed(op.declaration)
    ensures FramesProcedures(ApplyAll(ops, s))
    decreases |ops|
  {
    hide WellFormed;
    if ops != [] {
      assert ops[0] in ops;
      OpProcedures(ops[0], s);
      OpsProcedures(ops[1..], Apply(ops[0], s));
    }
  }

  lemma OpProcedures(op: Op, s: Flat)
    requires Applies(op, s) && FramesProcedures(s)
    requires op.SetProcedure? ==> op.declaration.ProcedureDeclaration? && WellFormed(op.declaration)
    ensures FramesProcedures(Apply(op, s))
  {
    hide WellFormed;
    if s.frames != [] { assert Top(s) in s.frames; }
  }

  lemma Unstack(s: State) returns (i: Instr, c: Control, e: Effect, pushed: seq<Instr>)
    requires Inv(s) && CanStep(s) && Step(s).1
    ensures s.control.stack == c.stack + [i] && s.control == c.(stack := s.control.stack)
    ensures EffectFits(i, s.flat, c, e) && Pushes(i, c.stack, e, pushed)
    ensures Step(s).0 == State(ApplyAll(e.ops, s.flat), e.control)
    ensures LoopsOk(e.control.loops) && FramesProcedures(ApplyAll(e.ops, s.flat))
  {
    hide Sound, WellFormed, Execute, EffectFits, Pushes, LoopsOk, Balanced, FramesProcedures;
    var n := |s.control.stack| - 1;
    i := s.control.stack[n];
    c := s.control.(stack := s.control.stack[..n]);
    SoundFrames(s);
    ExecuteFits(i, s.flat, c);
    e := Execute(i, ViewOf(s.flat), c);
    CodeParts(s, i);
    pushed := ExecutePushes(i, ViewOf(s.flat), c);
    FitsApplies(i, s.flat, c, e);
    OpsProcedures(e.ops, s.flat);
  }

  lemma SoundFrames(s: State)
    requires Sound(s)
    ensures FramesOk(s.flat)
  {
  }

  lemma FitsApplies(i: Instr, s: Flat, c: Control, e: Effect)
    requires EffectFits(i, s, c, e)
    ensures AppliesAll(e.ops, s)
  {
  }

  lemma CodeParts(s: State, i: Instr)
    requires CodeOk(s) && i in s.control.stack && (s.flat.frames != [] ==> SlotsStored(s.flat, Top(s.flat)))
    ensures Good(i) && LoopsOk(s.control.loops) && ProceduresOk(ViewOf(s.flat).procedures) && FramesProcedures(s.flat)
  {
    if s.flat.frames != [] { assert Top(s.flat) in s.flat.frames; }
  }

  /** A step that succeeds keeps the machine sound, its code well formed and its blocks balanced. */
  lemma StepKeeps(s: State)
    requires Inv(s) && CanStep(s) && Step(s).1
    ensures Inv(Step(s).0)
  {
    hide Sound, WellFormed, Step, Pushes, EffectFits, LoopsOk, FramesProcedures, Balanced, CodeOk, ApplyAll, AppliesAll;
    StepRefines(s);
    var i, c, e, pushed := Unstack(s);
    BalanceKept(s, Step(s).0, i, c, e, pushed);
    CodeKept(s, Step(s).0, i, c, e, pushed);
  }

  lemma BalanceKept(s: State, t: State, i: Instr, c: Control, e: Effect, pushed: seq<Instr>)
    requires Balanced(s) && s.control.stack == c.stack + [i] && t.control == e.control
    requires EffectFits(i, s.flat, c, e) && Pushes(i, c.stack, e, pushed) && t.flat == ApplyAll(e.ops, s.flat)
    ensures Balanced(t)
  {
    hide WellFormed;
    EndsConcat(c.stack, [i]);
    EndsConcat(c.stack, pushed);
    EndsOne(i);
    EndsNone();
  }

  lemma CodeKept(s: State, t: State, i: Instr, c: Control, e: Effect, pushed: seq<Instr>)
    requires CodeOk(s) && s.control.stack == c.stack + [i] && t.control == e.control && Pushes(i, c.stack, e, pushed)
    requires LoopsOk(e.control.loops) && FramesProcedures(t.flat)
    ensures CodeOk(t)
  {
    hide WellFormed, Ends, LoopsOk, ProceduresOk;
    forall x | x in t.control.stack ensures Good(x) {
      if x in c.stack { assert x in s.control.stack; }
    }
  }

  lemma EndsOne(i: Instr)
    ensures Ends([i]) == if i == EndBlock then 1 else 0
  {
    assert [i][..0] == [];
  }

  ghost predicate Run(states: seq<State>) {
    && states != []
    && forall k :: 0 <= k < |states| - 1 ==> CanStep(states[k]) && Step(states[k]) == (states[k + 1], true)
  }

  /** The machine with a program to run and the lists of its loops. */
  ghost predicate Started(s: State) {
    && s.flat == Flat([], map[], 0) && |s.control.stack| == 1 && s.control.stack[0].Block?
    && WellFormed(s.control.stack[0]) && LoopsOk(s.control.loops)
  }

  lemma RunStep(states: seq<State>, k: nat)
    requires Run(states) && k < |states| - 1
    ensures CanStep(states[k]) && Step(states[k]) == (states[k + 1], true)
  {
  }

  /** In every exception-free run the context depth is the number of `EndBlock`s on the stack. */
  lemma {:induction false} RunInv(states: seq<State>, k: nat)
    requires Run(states) && Started(states[0]) && k < |states|
    ensures Inv(states[k])
  {
    if k == 0 {
      EndsOne(states[0].control.stack[0]);
      assert states[0].control.stack == [states[0].control.stack[0]];
    } else {
      RunInv(states, k - 1);
      RunStep(states, k - 1);
      StepKeeps(states[k - 1]);
    }
  }

  /** A run goes on until the stack is empty, and then no frame is left. */
  lemma RunGoesOn(states: seq<State>, k: nat)
    requires Run(states) && Started(states[0]) && k < |states|
    ensures states[k].control.stack != [] ==> CanStep(states[k])
    ensures states[k].control.stack == [] ==> states[k].flat.frames == []
  {
    RunInv(states, k);
    if states[k].control.stack != [] { BalancedReady(states[k]); } else { EndsNone(); }
  }

  /** Every run is, step by step, a run of the chain of scopes. */
  lemma RunRefines(states: seq<State>, k: nat)
    requires Run(states) && Started(states[0]) && k < |states| - 1
    ensures Sound(states[k]) && Sound(states[k + 1])
    ensures CanStepChain(AbsState(states[k]))
    ensures StepChain(AbsState(states[k])) == (AbsState(states[k + 1]), true)
  {
    StepRefines(states[k]);
  }

  // ----- a finished block

  /** The variables that were there still are, with the same name and the same frame. */
  ghost predicate OnlyValuesChanged(before: Flat, after: Flat) {
    forall v :: v in before.variables ==>
      && v in after.variables
      && after.variables[v] == before.variables[v].(value := after.variables[v].value)
  }

  lemma {:induction false} OpsAbove(ops: seq<Op>, s: Flat, m: nat, nextFrame: nat)
    requires FramesOk(s) && IdsOk(s, nextFrame) && AppliesAll(ops, s) && Numbered(ops, nextFrame)
    requires m < |s.frames| || (m == |s.frames| && ops != [] && ops[0].Enter?)
    requires ops == [Leave] || forall i :: 0 <= i < |ops| ==> !ops[i].Leave?
    ensures m <= |ApplyAll(ops, s).frames| && ApplyAll(ops, s).frames[..m] == s.frames[..m]
    ensures OnlyValuesChanged(s, ApplyAll(ops, s))
    decreases |ops|
  {
    hide FramesOk, IdsOk, Apply, Applies, OnlyValuesChanged;
    if ops != [] {
      var t := Apply(ops[0], s);
      OpCommutes(ops[0], s, nextFrame);
      OpAbove(ops[0], s, m);
      if |ops| > 1 {
        OpsAbove(ops[1..], t, m, nextFrame + Entered(ops));
        OnlyValuesTwice(s, t, ApplyAll(ops[1..], t));
      } else {
        assert ops[1..] == [] && ApplyAll([], t) == t;
      }
    } else {
      OnlyValuesSame(s);
    }
  }

  lemma OnlyValuesTwice(a: Flat, b: Flat, c: Flat)
    requires OnlyValuesChanged(a, b) && OnlyValuesChanged(b, c)
    ensures OnlyValuesChanged(a, c)
  {
  }

  lemma OnlyValuesSame(s: Flat)
    ensures OnlyValuesChanged(s, s)
  {
  }

  lemma OpAbove(op: Op, s: Flat, m: nat)
    requires FramesOk(s) && Applies(op, s) && (m < |s.frames| || (m == |s.frames| && op.Enter?))
    ensures m <= |Apply(op, s).frames| && Apply(op, s).frames[..m] == s.frames[..m]
    ensures !op.Leave? ==> m < |Apply(op, s).frames|
    ensures OnlyValuesChanged(s, Apply(op, s))
  {
  }

  /** While the block that `base` is about to enter is open. */
  ghost predicate Within(base: State, s: State) {
    && base.control.stack != []
    && var n := |base.control.stack| - 1;
       var m := |base.flat.frames|;
    && n <= |s.control.stack| && s.control.stack[..n] == base.control.stack[..n]
    && (n < |s.control.stack| ==> s.control.stack[n] == EndBlock)
    && m <= |s.flat.frames| && s.flat.frames[..m] == base.flat.frames
    && OnlyValuesChanged(base.flat, s.flat)
  }

  lemma WithinEntered(base: State)
    requires Inv(base) && CanStep(base) && Step(base).1
    requires |Step(base).0.flat.frames| > |base.flat.frames|
    ensures Within(base, Step(base).0)
  {
    hide WellFormed, Step, OnlyValuesChanged, FramesOk, IdsOk;
    var i, c, e, pushed := Unstack(base);
    OpsAbove(e.ops, base.flat, |base.flat.frames|, c.nextFrame);
    assert base.flat.frames[..|base.flat.frames|] == base.flat.frames;
  }

  lemma WithinStays(base: State, s: State)
    requires Inv(base) && base.control.stack != [] && base.control.stack[|base.control.stack| - 1] != EndBlock
    requires Inv(s) && CanStep(s) && Step(s).1
    requires Within(base, s) && |s.control.stack| >= |base.control.stack|
    ensures Within(base, Step(s).0)
  {
    hide WellFormed, Step, OnlyValuesChanged, FramesOk, IdsOk, Ends;
    var n, m := |base.control.stack| - 1, |base.flat.frames|;
    var i, c, e, pushed := Unstack(s);
    var rest := base.control.stack[..n];
    DeepEnough(base, s);
    OpsAbove(e.ops, s.flat, m, c.nextFrame);
    OnlyValuesTwice(base.flat, s.flat, ApplyAll(e.ops, s.flat));
    assert c.stack[..n] == rest;
    assert (c.stack + pushed)[..n] == rest;
  }

  /** A block that is still open has a frame above those of its base. */
  lemma DeepEnough(base: State, s: State)
    requires Inv(base) && base.control.stack != [] && base.control.stack[|base.control.stack| - 1] != EndBlock
    requires Inv(s) && Within(base, s) && |s.control.stack| >= |base.control.stack|
    ensures |base.flat.frames| < |s.flat.frames|
  {
    var n := |base.control.stack| - 1;
    var rest, above := s.control.stack[..n], s.control.stack[n..];
    assert s.control.stack == rest + above && above == [EndBlock] + above[1..];
    EndsConcat(rest, above);
    EndsConcat([EndBlock], above[1..]);
    EndsOne(EndBlock);
    assert base.control.stack == rest + [base.control.stack[n]];
    EndsConcat(rest, [base.control.stack[n]]);
    EndsOne(base.control.stack[n]);
  }

  /** An instruction entered a frame in the step after states[0]. When the stack has come down
      to what was below that instruction for the first time, the frames are those of before:
      same tables, procedures and iterations. Only values of variables have changed. */
  lemma {:induction false} BlockRestores(states: seq<State>, k: nat)
    requires Run(states) && Inv(states[0]) && 1 <= k < |states|
    requires |states[1].flat.frames| > |states[0].flat.frames|
    requires forall j :: 1 <= j < k ==> |states[j].control.stack| >= |states[0].control.stack|
    ensures Inv(states[k]) && Within(states[0], states[k])
    ensures |states[k].control.stack| < |states[0].control.stack| ==>
      && states[k].control.stack == states[0].control.stack[..|states[0].control.stack| - 1]
      && states[k].flat.frames == states[0].flat.frames
      && OnlyValuesChanged(states[0].flat, states[k].flat)
    decreases k
  {
    hide Inv, CanStep, Step, Within;
    var base := states[0];
    RunStep(states, 0);
    EntersNotEnd(base);
    if k == 1 {
      StepKeeps(base);
      WithinEntered(base);
    } else {
      BlockRestores(states, k - 1);
      RunStep(states, k - 1);
      StepKeeps(states[k - 1]);
      WithinStays(base, states[k - 1]);
    }
    ClosedAgain(base, states[k]);
  }

  lemma EntersNotEnd(base: State)
    requires Inv(base) && CanStep(base) && Step(base).1
    requires |Step(base).0.flat.frames| > |base.flat.frames|
    ensures base.control.stack != [] && base.control.stack[|base.control.stack| - 1] != EndBlock
  {
    hide WellFormed, Step;
    var i, c, e, pushed := Unstack(base);
  }

  lemma ClosedAgain(base: State, s: State)
    requires Inv(base) && base.control.stack != [] && base.control.stack[|base.control.stack| - 1] != EndBlock
    requires Inv(s) && Within(base, s)
    ensures |s.control.stack| < |base.control.stack| ==>
      && s.control.stack == base.control.stack[..|base.control.stack| - 1]
      && s.flat.frames == base.flat.frames && OnlyValuesChanged(base.flat, s.flat)
  {
    var n := |base.control.stack| - 1;
    var rest := base.control.stack[..n];
    if |s.control.stack| == n {
      assert s.control.stack == s.control.stack[..n] == rest;
      assert base.control.stack == rest + [base.control.stack[n]];
      EndsConcat(rest, [base.control.stack[n]]);
      EndsOne(base.control.stack[n]);
      assert s.flat.frames == s.flat.frames[..|base.flat.frames|];
    }
  }
}
