/** The debugger of Macchiato over its own fields: the methods of the instructions, each proved
    to do what `MacchiatoCode.Execute` says, and the loop that steps through a program. */
module MacchiatoDebugger {
  import opened MacchiatoCode
  import opened Prelude
  import opened Macchiato
  import opened MacchiatoMachine

  /** The state after an instruction that was taken off the stack of `before`. */
  ghost function Executed(i: Instr, before: State): (State, bool)
    requires Sound(before) && Ready(i, before.flat)
  {
    ExecuteFits(i, before.flat, before.control);
    var e := Execute(i, ViewOf(before.flat), before.control);
    (State(ApplyAll(e.ops, before.flat), e.control), e.ok)
  }

  lemma {:induction false} ReverseLast(s: seq<Instr>, k: nat)
    requires k < |s|
    ensures Reverse(s[k + 1..]) + [s[k]] == Reverse(s[k..])
  {
    assert s[k..][1..] == s[k + 1..] && s[k..][0] == s[k];
  }

  /** Binding one parameter adds its value to what is in sight. */
  lemma BindOne(s: Flat, name: char, value: Int32)
    requires FramesOk(s) && s.frames != [] && SlotsStored(s, Top(s))
    ensures var t := Apply(NewVariable(name, value), s);
      && t.frames != [] && SlotsStored(t, Top(t))
      && EnvOf(t, Top(t)) == EnvOf(s, Top(s))[name := value]
  {
    hide FrameOk;
    var t := Apply(NewVariable(name, value), s);
    forall x | x in Top(s).slots ensures Top(s).slots[x] < s.nextVariable {}
    assert EnvOf(t, Top(t)) == EnvOf(s, Top(s))[name := value];
  }

  lemma EnterSees(s: Flat, id: nat)
    requires FramesOk(s) && IdsOk(s, id)
    ensures var t := Apply(Enter(id), s);
      && t.frames != [] && SlotsStored(t, Top(t)) && FramesOk(t)
      && (s.frames != [] ==> SlotsStored(s, Top(s)) && EnvOf(t, Top(t)) == EnvOf(s, Top(s)))
  {
    EnterCommutes(s, id);
    TopStored(Apply(Enter(id), s));
    if s.frames != [] { TopStored(s); }
  }

  class Debugger {
    var frames: seq<Frame>
    var variables: map<nat, Variable>
    var nextVariable: nat
    var stack: seq<Instr>
    var loops: map<nat, seq<Instr>>
    var declaredIn: map<Object, nat>
    var nextFrame: nat
    var printed: seq<Int32>

    function FlatOf(): Flat
      reads this
    {
      Flat(frames, variables, nextVariable)
    }

    function Contents(): State
      reads this
    {
      State(FlatOf(), Control(stack, loops, declaredIn, nextFrame, printed))
    }

    constructor (block: Instr, lists: map<nat, seq<Instr>>)
      requires block.Block? && WellFormed(block) && LoopsOk(lists)
      ensures Started(Contents()) && stack == [block]
    {
      frames, variables, nextVariable := [], map[], 0;
      stack, loops, declaredIn, nextFrame, printed := [block], lists, map[], 0, [];
    }

    /** A new frame with the tables of the one on top. */
    method AddContext()
      modifies this`frames, this`nextFrame
      ensures FlatOf() == Apply(Enter(old(nextFrame)), old(FlatOf())) && nextFrame == old(nextFrame) + 1
    {
      if frames == [] {
        frames := [Frame(nextFrame, map[], map[], 0)];
      } else {
        var top := frames[|frames| - 1];
        frames := frames + [Frame(nextFrame, top.slots, top.procedures, 0)];
      }
      nextFrame := nextFrame + 1;
    }

    /** Pushes the instructions from the last to the first. */
    method AddInstructions(instructions: seq<Instr>)
      modifies this`stack
      ensures stack == old(stack) + Reverse(instructions)
    {
      assert instructions[|instructions|..] == [] && Reverse([]) == [] && stack + [] == stack;
      for i := |instructions| downto 0
        invariant stack == old(stack) + Reverse(instructions[i..])
      {
        ReverseLast(instructions, i);
        stack := stack + [instructions[i]];
      }
      assert instructions[0..] == instructions;
    }

    method ExecuteBlock(i: Instr) returns (ok: bool)
      requires Sound(Contents()) && i.Block?
      modifies this
      ensures (Contents(), ok) == Executed(i, old(Contents()))
    {
      hide Sound, Reverse;
      OneApplies(Enter(nextFrame), FlatOf());
      AddContext();
      AddInstructions(i.body);
      return true;
    }

    method ExecuteEndBlock(i: Instr) returns (ok: bool)
      requires Sound(Contents()) && i == EndBlock && frames != []
      modifies this
      ensures (Contents(), ok) == Executed(i, old(Contents()))
    {
      hide Sound;
      OneApplies(Leave, FlatOf());
      frames := frames[..|frames| - 1];
      return true;
    }

    method ExecuteVariableDeclaration(i: Instr) returns (ok: bool)
      requires Sound(Contents()) && i.VariableDeclaration? && frames != []
      modifies this
      ensures (Contents(), ok) == Executed(i, old(Contents()))
    {
      hide FramesOk, IdsOk, Evaluate;
      TopStored(FlatOf());
      var top := frames[|frames| - 1];
      if !Letter(i.name) { return false; }
      if i.name !in top.slots || variables[top.slots[i.name]].declaredIn != top.id {
        var value := Evaluate(i.expression, EnvOf(FlatOf(), top));
        if value.None? { return false; }
        OneApplies(NewVariable(i.name, value.value), FlatOf());
        variables := variables[nextVariable := Variable(i.name, top.id, value.value)];
        frames := frames[|frames| - 1 := top.(slots := top.slots[i.name := nextVariable])];
        nextVariable := nextVariable + 1;
        return true;
      }
      return false;
    }

    method ExecuteAssignVariableValue(i: Instr) returns (ok: bool)
      requires Sound(Contents()) && i.AssignVariableValue? && frames != []
      modifies this
      ensures (Contents(), ok) == Executed(i, old(Contents()))
    {
      hide FramesOk, IdsOk, Evaluate;
      TopStored(FlatOf());
      var top := frames[|frames| - 1];
      if !Letter(i.name) || i.name !in top.slots { return false; }
      var value := Evaluate(i.expression, EnvOf(FlatOf(), top));
      if value.None? { return false; }
      OneApplies(SetVariable(i.name, value.value), FlatOf());
      var v := top.slots[i.name];
      variables := variables[v := variables[v].(value := value.value)];
      return true;
    }

    method ExecuteIfElse(i: Instr) returns (ok: bool)
      requires Sound(Contents()) && i.IfElseStatement? && frames != []
      modifies this
      ensures (Contents(), ok) == Executed(i, old(Contents()))
    {
      hide FramesOk, IdsOk, Evaluate, Reverse;
      TopStored(FlatOf());
      var env := EnvOf(FlatOf(), frames[|frames| - 1]);
      var left, right := Evaluate(i.left, env), Evaluate(i.right, env);
      if left.None? || right.None? { return false; }
      if Holds(i.condition, left.value, right.value) {
        AddInstructions(i.whenTrue);
      } else {
        AddInstructions(i.whenFalse);
      }
      return true;
    }

    /** Sets the first element of the list of a loop. */
    method SetFirst(loop: nat, first: Instr)
      modifies this`loops
      ensures loops == old(loops)[loop := WithFirst(old(loops), loop, first)]
    {
      var list := if loop in loops then loops[loop] else [];
      assert [first] + [] == [first];
      loops := loops[loop := [first] + if list == [] then [] else list[1..]];
    }

    method ExecuteForLoop(i: Instr) returns (ok: bool)
      requires Sound(Contents()) && i.ForLoop? && frames != []
      modifies this
      ensures (Contents(), ok) == Executed(i, old(Contents()))
    {
      hide FramesOk, IdsOk, Evaluate, Reverse, WithFirst, Apply;
      TopStored(FlatOf());
      ghost var s := FlatOf();
      var times := Evaluate(i.bound, EnvOf(FlatOf(), frames[|frames| - 1]));
      if times.None? { return false; }
      ghost var id := nextFrame;
      EnterIs(id, s);
      OneApplies(Enter(id), s);
      AddContext();
      stack := stack + [EndBlock];
      OneEnd();
      SetFirst(i.loop, VariableDeclaration(i.counter, Constant(0)));
      loops := loops[i.loop := loops[i.loop] + [EndForLoop(i.loop, times.value, i.counter)]];
      assert loops == old(loops)[i.loop := loops[i.loop]];
      NewFrameIteration(s, id);
      if frames[|frames| - 1].iteration < times.value {
        AddInstructions(loops[i.loop]);
        OneApplies(NextIteration, FlatOf());
        ManyApply(Enter(id), [NextIteration], s);
        NextIs(FlatOf());
        frames := frames[|frames| - 1 := frames[|frames| - 1].(iteration := frames[|frames| - 1].iteration + 1)];
        assert [Enter(id)] + [NextIteration] == [Enter(id), NextIteration];
      }
      return true;
    }

    method ExecuteEndForLoop(i: Instr) returns (ok: bool)
      requires Sound(Contents()) && i.EndForLoop? && frames != []
      modifies this
      ensures (Contents(), ok) == Executed(i, old(Contents()))
    {
      hide FramesOk, IdsOk, Reverse, WithFirst;
      TopStored(FlatOf());
      var top := frames[|frames| - 1];
      if top.iteration < i.times {
        SetFirst(i.loop, AssignVariableValue(i.counter, Constant(top.iteration)));
        AddInstructions(loops[i.loop]);
        OneApplies(NextIteration, FlatOf());
        frames := frames[|frames| - 1 := top.(iteration := top.iteration + 1)];
      }
      return true;
    }

    method ExecuteProcedureDeclaration(i: Instr) returns (ok: bool)
      requires Sound(Contents()) && i.ProcedureDeclaration? && frames != []
      modifies this
      ensures (Contents(), ok) == Executed(i, old(Contents()))
    {
      hide FramesOk, IdsOk;
      TopStored(FlatOf());
      if i.doubleParameter || i.invalidName { return false; }
      var top := frames[|frames| - 1];
      declaredIn := declaredIn[ObjectOf(i) := top.id];
      var known := i.procedure in top.procedures;
      if known && DeclaredHere(top.procedures[i.procedure], Contents().control, top.id) { return false; }
      OneApplies(SetProcedure(i.procedure, i), FlatOf());
      frames := frames[|frames| - 1 := top.(procedures := top.procedures[i.procedure := i])];
      return true;
    }

    method ExecutePrint(i: Instr) returns (ok: bool)
      requires Sound(Contents()) && i.Print? && frames != []
      modifies this
      ensures (Contents(), ok) == Executed(i, old(Contents()))
    {
      hide FramesOk, IdsOk, Evaluate;
      TopStored(FlatOf());
      var value := Evaluate(i.expression, EnvOf(FlatOf(), frames[|frames| - 1]));
      if value.None? { return false; }
      printed := printed + [value.value];
      return true;
    }

    /** The parameters are bound one after another in the new frame. */
    method BindParameters(names: seq<char>, arguments: seq<Expr>) returns (ok: bool)
      requires |names| == |arguments| && FramesOk(FlatOf()) && IdsOk(FlatOf(), nextFrame) && frames != []
      requires SlotsStored(FlatOf(), Top(FlatOf()))
      modifies this`frames, this`variables, this`nextVariable
      ensures var bound := Bound(names, arguments, EnvOf(old(FlatOf()), Top(old(FlatOf()))));
        AppliesAll(bound.0, old(FlatOf())) && (FlatOf(), ok) == (ApplyAll(bound.0, old(FlatOf())), bound.1)
    {
      hide FramesOk, IdsOk, Evaluate, Bound, Apply, AppliesAll, ApplyAll, EnvOf, SlotsStored, Applies;
      ghost var s := FlatOf();
      ghost var bound := Bound(names, arguments, EnvOf(s, Top(s)));
      BindingsApply(bound.0, s);
      assert names[0..] == names && arguments[0..] == arguments;
      for i := 0 to |names|
        invariant frames != [] && nextFrame == old(nextFrame)
        invariant Binding(names[i..], arguments[i..], FlatOf(), nextFrame, ApplyAll(bound.0, s), bound.1)
      {
        BindNext(names[i..], arguments[i..], FlatOf(), nextFrame, ApplyAll(bound.0, s), bound.1);
        var top := frames[|frames| - 1];
        var value := Evaluate(arguments[i], EnvOf(FlatOf(), top));
        if value.None? { return false; }
        assert names[i..][1..] == names[i + 1..] && arguments[i..][1..] == arguments[i + 1..];
        NewIs(FlatOf(), names[i], value.value);
        variables := variables[nextVariable := Variable(names[i], top.id, value.value)];
        frames := frames[|frames| - 1 := top.(slots := top.slots[names[i] := nextVariable])];
        nextVariable := nextVariable + 1;
      }
      BindEnd(FlatOf(), nextFrame, ApplyAll(bound.0, s), bound.1);
      return true;
    }

    method ExecuteProcedureInvoke(i: Instr) returns (ok: bool)
      requires Sound(Contents()) && i.ProcedureInvoke? && frames != []
      modifies this
      ensures (Contents(), ok) == Executed(i, old(Contents()))
    {
      hide FramesOk, IdsOk, Evaluate, Reverse, Bound, Apply;
      TopStored(FlatOf());
      ghost var s, id := FlatOf(), nextFrame;
      var top := frames[|frames| - 1];
      if i.procedure !in top.procedures || !top.procedures[i.procedure].ProcedureDeclaration? { return false; }
      var procedure := top.procedures[i.procedure];
      EnterCommutes(s, id);
      EnterSees(s, id);
      EnterIs(id, s);
      OneApplies(Enter(id), s);
      AddContext();
      if |procedure.parameters| != |i.arguments| { return false; }
      ghost var t := FlatOf();
      var bound := BindParameters(procedure.parameters, i.arguments);
      ManyApply(Enter(id), Bound(procedure.parameters, i.arguments, EnvOf(t, Top(t))).0, s);
      if !bound { return false; }
      AddInstructions(procedure.body);
      return true;
    }

    method ExecuteInstruction(i: Instr) returns (ok: bool)
      requires Sound(Contents()) && Ready(i, FlatOf())
      modifies this
      ensures (Contents(), ok) == Executed(i, old(Contents()))
    {
      hide Executed, Sound;
      match i
      case Block(_) => ok := ExecuteBlock(i);
      case EndBlock => ok := ExecuteEndBlock(i);
      case VariableDeclaration(_, _) => ok := ExecuteVariableDeclaration(i);
      case AssignVariableValue(_, _) => ok := ExecuteAssignVariableValue(i);
      case IfElseStatement(_, _, _, _, _) => ok := ExecuteIfElse(i);
      case ForLoop(_, _, _) => ok := ExecuteForLoop(i);
      case EndForLoop(_, _, _) => ok := ExecuteEndForLoop(i);
      case ProcedureDeclaration(_, _, _, _, _, _) => ok := ExecuteProcedureDeclaration(i);
      case ProcedureInvoke(_, _) => ok := ExecuteProcedureInvoke(i);
      case Print(_) => ok := ExecutePrint(i);
    }

    /** One step: the instruction on top is executed, and put back if it fails. */
    method StepOnce() returns (ok: bool)
      requires CanStep(Contents())
      modifies this
      ensures (Contents(), ok) == Step(old(Contents())) && Sound(Contents())
    {
      hide Sound, Executed, Execute;
      StepRefines(Contents());
      ghost var before := Contents();
      var i := stack[|stack| - 1];
      stack := stack[..|stack| - 1];
      StepIs(before, Contents(), i);
      SoundBelow(before, Contents());
      ok := ExecuteInstruction(i);
      if !ok { stack := stack + [i]; }
    }

    /** At most that many steps, up to the first exception or the end of the program. */
    method ManySteps(steps: nat) returns (ok: bool, ghost states: seq<State>)
      requires Inv(Contents())
      modifies this
      ensures Run(states) && states[0] == old(Contents())
      ensures ok ==> |states| == steps + 1 && states[steps] == Contents() && Inv(Contents())
      ensures !ok ==> |states| <= steps && Inv(states[|states| - 1])
                      && (if states[|states| - 1].control.stack == [] then Contents() == states[|states| - 1]
                          else CanStep(states[|states| - 1]) && Step(states[|states| - 1]) == (Contents(), false))
    {
      hide Inv, Step, CanStep;
      states := [Contents()];
      for i := 0 to steps
        invariant Run(states) && |states| == i + 1 && states[0] == old(Contents())
        invariant states[i] == Contents() && Inv(Contents())
      {
        if stack == [] { return false, states; }
        InvCanStep(Contents());
        var done := StepOnce();
        if !done { return false, states; }
        StepKeeps(states[i]);
        RunLonger(states, Contents());
        states := states + [Contents()];
      }
      return true, states;
    }
  }

  lemma NewFrameIteration(s: Flat, id: nat)
    ensures var t := Apply(Enter(id), s); t.frames != [] && t.frames[|t.frames| - 1].iteration == 0
  {
  }

  lemma NextIs(s: Flat)
    requires s.frames != []
    ensures Apply(NextIteration, s) == WithTop(s, Top(s).(iteration := Top(s).iteration + 1))
  {
  }

  lemma NewIs(s: Flat, name: char, value: Int32)
    requires s.frames != []
    ensures Apply(NewVariable(name, value), s) ==
      Flat(s.frames[|s.frames| - 1 := Top(s).(slots := Top(s).slots[name := s.nextVariable])],
           s.variables[s.nextVariable := Variable(name, Top(s).id, value)], s.nextVariable + 1)
  {
  }

  /** Binding the remaining parameters leads to the given end. */
  ghost predicate Binding(names: seq<char>, arguments: seq<Expr>, f: Flat, nextFrame: nat, end: Flat, ok: bool) {
    && |names| == |arguments| && FramesOk(f) && IdsOk(f, nextFrame) && f.frames != [] && SlotsStored(f, Top(f))
    && var rest := Bound(names, arguments, EnvOf(f, Top(f)));
       AppliesAll(rest.0, f) && ApplyAll(rest.0, f) == end && rest.1 == ok
  }

  lemma BindNext(names: seq<char>, arguments: seq<Expr>, f: Flat, nextFrame: nat, end: Flat, ok: bool)
    requires Binding(names, arguments, f, nextFrame, end, ok) && names != []
    ensures SlotsStored(f, Top(f))
    ensures var value := Evaluate(arguments[0], EnvOf(f, Top(f)));
      && (value.None? ==> f == end && !ok)
      && (value.Some? ==> Binding(names[1..], arguments[1..], Apply(NewVariable(names[0], value.value), f), nextFrame, end, ok))
  {
    hide FramesOk, IdsOk, Evaluate, Apply, EnvOf, SlotsStored;
    var env := EnvOf(f, Top(f));
    var value := Evaluate(arguments[0], env);
    if value.Some? {
      var op := NewVariable(names[0], value.value);
      BindOne(f, names[0], value.value);
      NewVariableCommutes(f, names[0], value.value, nextFrame);
      var rest := Bound(names[1..], arguments[1..], env[names[0] := value.value]);
      assert Bound(names, arguments, env) == ([op] + rest.0, rest.1);
      BoundUnfolds(names[0], value.value, rest.0, f);
    }
  }

  lemma BindEnd(f: Flat, nextFrame: nat, end: Flat, ok: bool)
    requires Binding([], [], f, nextFrame, end, ok)
    ensures f == end && ok
  {
    hide FramesOk, IdsOk, EnvOf;
  }

  lemma BoundUnfolds(name: char, value: Int32, rest: seq<Op>, s: Flat)
    requires s.frames != [] && AppliesAll([NewVariable(name, value)] + rest, s)
    ensures AppliesAll(rest, Apply(NewVariable(name, value), s))
    ensures ApplyAll([NewVariable(name, value)] + rest, s) == ApplyAll(rest, Apply(NewVariable(name, value), s))
  {
    assert ([NewVariable(name, value)] + rest)[1..] == rest;
  }

  lemma SoundBelow(before: State, after: State)
    requires Sound(before) && after.flat == before.flat && after.control.nextFrame == before.control.nextFrame
    ensures Sound(after)
  {
  }

  lemma StepIs(before: State, popped: State, i: Instr)
    requires CanStep(before) && i == before.control.stack[|before.control.stack| - 1]
    requires popped == before.(control := before.control.(stack := before.control.stack[..|before.control.stack| - 1]))
    ensures Sound(popped)
    ensures var r := Executed(i, popped);
      Step(before) == (if r.1 then r.0 else r.0.(control := r.0.control.(stack := r.0.control.stack + [i])), r.1)
  {
    hide FramesOk, IdsOk, Execute;
  }

  lemma InvCanStep(s: State)
    requires Inv(s) && s.control.stack != []
    ensures CanStep(s)
  {
    BalancedReady(s);
  }

  lemma RunLonger(states: seq<State>, next: State)
    requires Run(states) && CanStep(states[|states| - 1]) && Step(states[|states| - 1]) == (next, true)
    ensures Run(states + [next])
  {
  }
}
