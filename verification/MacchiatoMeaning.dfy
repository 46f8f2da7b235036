/** What a Macchiato program means, rule by rule over the chain of scopes and without a stack of
    instructions; and that the machine, with an instruction on top of its stack, does just that. */
module MacchiatoMeaning {
  import opened MacchiatoCode
  import opened Macchiato
  import opened MacchiatoMachine
  import opened MacchiatoValues
  import opened Prelude

  /** The scopes, what loops and procedure objects remember, and the output so far. */
  datatype Memory = Memory(chain: Chain, loops: map<nat, seq<Instr>>, declaredIn: map<Object, nat>,
                           nextScope: nat, printed: seq<Int32>)

  /** `Unfinished` says only that the given depth was not enough. */
  datatype Outcome = Done(memory: Memory) | Failure(printed: seq<Int32>) | Unfinished

  function Here(c: Chain): Scope
    requires c != []
  {
    c[|c| - 1]
  }

  function WithHere(c: Chain, scope: Scope): Chain
    requires c != []
  {
    c[..|c| - 1] + [scope]
  }

  /** A new innermost scope without variables that sees the procedures seen from outside. */
  function Inner(m: Memory): Memory {
    var procedures := if m.chain == [] then map[] else Here(m.chain).procedures;
    m.(chain := m.chain + [Scope(m.nextScope, map[], procedures, 0)], nextScope := m.nextScope + 1)
  }

  function Declared(c: Chain, name: char, value: Int32): Chain
    requires c != []
  {
    WithHere(c, Here(c).(own := Here(c).own[name := value]))
  }

  /** The nearest variable of the name gets the value. */
  function Changed(c: Chain, name: char, value: Int32): Chain
    requires Nearest(c, name) >= 0
  {
    var k := Nearest(c, name);
    c[k := c[k].(own := c[k].own[name := value])]
  }

  /** Each argument is evaluated with the parameters before it in sight. */
  ghost function WithArguments(names: seq<char>, arguments: seq<Expr>, c: Chain): Option<Chain>
    requires |names| == |arguments| && c != []
    decreases |names|
  {
    if names == [] then Some(c)
    else
      match ValueOf(arguments[0], c)
      case None => None
      case Some(x) => WithArguments(names[1..], arguments[1..], Declared(c, names[0], x))
  }

  /** The instructions of a loop with another first one. */
  function LoopWith(m: Memory, loop: nat, first: Instr): seq<Instr> {
    [first] + if loop in m.loops && m.loops[loop] != [] then m.loops[loop][1..] else []
  }

  function Counted(c: Chain): Chain
    requires c != []
  {
    WithHere(c, Here(c).(iteration := Here(c).iteration + 1))
  }

  /** The meaning of an instruction, followed no deeper than `depth`. */
  ghost function Meaning(depth: nat, i: Instr, m: Memory): Outcome
    decreases depth, 0
  {
    if depth == 0 || (m.chain == [] && !i.Block?) then Unfinished
    else match i
      case Block(body) => MeaningAll(depth - 1, body, Inner(m))
      case EndBlock => Done(m.(chain := m.chain[..|m.chain| - 1]))
      case VariableDeclaration(name, expression) =>
        var value := ValueOf(expression, m.chain);
        if !('a' <= name <= 'z') || name in Here(m.chain).own || value.None? then Failure(m.printed)
        else Done(m.(chain := Declared(m.chain, name, value.value)))
      case AssignVariableValue(name, expression) =>
        var value := ValueOf(expression, m.chain);
        if !('a' <= name <= 'z') || Nearest(m.chain, name) < 0 || value.None? then Failure(m.printed)
        else Done(m.(chain := Changed(m.chain, name, value.value)))
      case Print(expression) =>
        (match ValueOf(expression, m.chain)
         case None => Failure(m.printed)
         case Some(x) => Done(m.(printed := m.printed + [x])))
      case IfElseStatement(left, condition, right, whenTrue, whenFalse) =>
        (match (ValueOf(left, m.chain), ValueOf(right, m.chain))
         case (Some(a), Some(b)) =>
           if Compares(a, condition, b) then MeaningAll(depth - 1, whenTrue, m) else MeaningAll(depth - 1, whenFalse, m)
         case _ => Failure(m.printed))
      case ProcedureDeclaration(_, procedure, _, doubleParameter, invalidName, _) =>
        var here := Here(m.chain);
        var declaredIn := m.declaredIn[ObjectOf(i) := here.id];
        if doubleParameter || invalidName
          || (procedure in here.procedures && LastIn(here.procedures[procedure], declaredIn, here.id))
        then Failure(m.printed)
        else
          var declared := here.(procedures := here.procedures[procedure := i]);
          Done(m.(chain := WithHere(m.chain, declared), declaredIn := declaredIn))
      case ProcedureInvoke(procedure, arguments) =>
        var procedures := Here(m.chain).procedures;
        if procedure !in procedures || !procedures[procedure].ProcedureDeclaration? then Failure(m.printed)
        else
          var p := procedures[procedure];
          if |p.parameters| != |arguments| then Failure(m.printed)
          else
            (match WithArguments(p.parameters, arguments, Inner(m).chain)
             case None => Failure(m.printed)
             case Some(chain) => MeaningAll(depth - 1, p.body, Inner(m).(chain := chain)))
      case ForLoop(loop, counter, bound) =>
        (match ValueOf(bound, m.chain)
         case None => Failure(m.printed)
         case Some(times) =>
           var list := LoopWith(m, loop, VariableDeclaration(counter, Constant(0))) + [EndForLoop(loop, times, counter)];
           var inner := Inner(m).(loops := m.loops[loop := list]);
           if times <= 0 then MeaningAll(depth - 1, [EndBlock], inner)
           else MeaningAll(depth - 1, list + [EndBlock], inner.(chain := Counted(inner.chain))))
      case EndForLoop(loop, times, counter) =>
        var done := Here(m.chain).iteration;
        if done >= times then Done(m)
        else
          var list := LoopWith(m, loop, AssignVariableValue(counter, Constant(done)));
          MeaningAll(depth - 1, list, m.(loops := m.loops[loop := list], chain := Counted(m.chain)))
  }

  predicate LastIn(p: Instr, declaredIn: map<Object, nat>, id: nat) {
    p.ProcedureDeclaration? && ObjectOf(p) in declaredIn && declaredIn[ObjectOf(p)] == id
  }

  /** One instruction after the other. */
  ghost function MeaningAll(depth: nat, s: seq<Instr>, m: Memory): Outcome
    decreases depth, |s|
  {
    if s == [] then Done(m)
    else
      match Meaning(depth, s[0], m)
      case Done(m') => MeaningAll(depth, s[1..], m')
      case other => other
  }

  // ----- the machine in a state of memory

  ghost predicate At(s: State, stack: seq<Instr>, m: Memory) {
    && Inv(s) && Abs(s.flat) == m.chain
    && s.control == Control(stack, m.loops, m.declaredIn, m.nextScope, m.printed)
  }

  /** n steps without an exception lead from s to t. */
  ghost predicate Goes(s: State, n: nat, t: State)
    decreases n
  {
    if n == 0 then s == t else CanStep(s) && Step(s).1 && Goes(Step(s).0, n - 1, t)
  }

  ghost predicate FailsAt(t: State, printed: seq<Int32>) {
    CanStep(t) && !Step(t).1 && t.control.printed == printed
  }

  /** With this outcome ahead, the machine comes down to the rest of its stack, or fails, or goes on. */
  ghost predicate Agrees(o: Outcome, depth: nat, s: State, rest: seq<Instr>) {
    match o
    case Done(m) => exists n, t :: Goes(s, n, t) && At(t, rest, m)
    case Failure(printed) => exists n, t :: Goes(s, n, t) && FailsAt(t, printed)
    case Unfinished => exists t :: Goes(s, depth, t)
  }

  lemma Stays(s: State)
    ensures Goes(s, 0, s)
  {
  }

  lemma {:induction false} GoesTrans(s: State, n: nat, t: State, k: nat, u: State)
    requires Goes(s, n, t) && Goes(t, k, u)
    ensures Goes(s, n + k, u)
    decreases n
  {
    hide Sound, Step;
    if n > 0 { GoesTrans(Step(s).0, n - 1, t, k, u); }
  }

  // ----- one instruction

  /** What the machine does in one step from there, said of the chain. */
  ghost function EffectAt(i: Instr, rest: seq<Instr>, m: Memory): Effect {
    Execute(i, ViewChain(m.chain), Control(rest, m.loops, m.declaredIn, m.nextScope, m.printed))
  }

  lemma StepAt(s: State, rest: seq<Instr>, i: Instr, m: Memory)
    requires At(s, rest + [i], m)
    ensures CanStep(s) && (m.chain == [] ==> i.Block?)
    ensures var e := EffectAt(i, rest, m);
      && Step(s).1 == e.ok && AppliesAllChain(e.ops, m.chain)
      && (e.ok ==> At(Step(s).0, e.control.stack, Memory(ApplyAllChain(e.ops, m.chain), e.control.loops,
            e.control.declaredIn, e.control.nextFrame, e.control.printed)))
  {
    hide Sound, CodeOk, Execute, AppliesAllChain, ApplyAllChain, ViewChain, Abs, Ends;
    BalancedReady(s);
    StepRefines(s);
    var n := |rest|;
    assert s.control.stack[n] == i && s.control.stack[..n] == rest;
    assert s.control.(stack := rest) == Control(rest, m.loops, m.declaredIn, m.nextScope, m.printed);
    AbsEmpty(s);
    if Step(s).1 { StepKeeps(s); }
  }

  lemma AbsEmpty(s: State)
    requires Sound(s)
    ensures Abs(s.flat) == [] <==> s.flat.frames == []
  {
  }

  lemma NoOps(c: Chain)
    ensures AppliesAllChain([], c) && ApplyAllChain([], c) == c
  {
  }

  lemma OneOp(op: Op, c: Chain)
    requires AppliesChain(op, c)
    ensures AppliesAllChain([op], c) && ApplyAllChain([op], c) == ApplyChain(op, c)
  {
    assert [op][1..] == [];
  }

  lemma MoreOps(op: Op, ops: seq<Op>, c: Chain)
    requires AppliesAllChain([op] + ops, c)
    ensures AppliesChain(op, c) && AppliesAllChain(ops, ApplyChain(op, c))
    ensures ApplyAllChain([op] + ops, c) == ApplyAllChain(ops, ApplyChain(op, c))
  {
    assert ([op] + ops)[1..] == ops;
  }

  // ----- one step, rule by rule

  /** The step goes on with m' and the instructions of `list`. */
  ghost predicate GoesOn(e: Effect, c: Chain, rest: seq<Instr>, m': Memory, list: seq<Instr>) {
    && e.ok && e.control == Control(rest + Reverse(list), m'.loops, m'.declaredIn, m'.nextScope, m'.printed)
    && (AppliesAllChain(e.ops, c) ==> ApplyAllChain(e.ops, c) == m'.chain)
  }

  ghost predicate LeadsTo(o: Outcome, depth: nat, e: Effect, c: Chain, rest: seq<Instr>, m': Memory, list: seq<Instr>)
    requires depth > 0
  {
    GoesOn(e, c, rest, m', list) && o == MeaningAll(depth - 1, list, m')
  }

  /** The step fails when the rule says so, and otherwise goes on with what the rule goes on with. */
  ghost predicate Follows(depth: nat, i: Instr, rest: seq<Instr>, m: Memory)
    requires depth > 0
  {
    var o, e := Meaning(depth, i, m), EffectAt(i, rest, m);
    (!e.ok && o == Failure(m.printed)) || exists m', list :: LeadsTo(o, depth, e, m.chain, rest, m', list)
  }

  lemma NoMore(depth: nat, rest: seq<Instr>, m: Memory)
    ensures Reverse([]) == [] && rest + [] == rest && MeaningAll(depth, [], m) == Done(m)
  {
  }

  lemma EnterIsInner(m: Memory)
    ensures AppliesChain(Enter(m.nextScope), m.chain) && ApplyChain(Enter(m.nextScope), m.chain) == Inner(m).chain
    ensures EnvChain(Inner(m).chain) == EnvChain(m.chain)
  {
    var c := Inner(m).chain;
    assert c[..|c| - 1] == m.chain;
  }

  lemma BlockRule(depth: nat, i: Instr, rest: seq<Instr>, m: Memory)
    requires i.Block? && depth > 0
    ensures Follows(depth, i, rest, m)
  {
    hide Reverse, MeaningAll;
    EnterIsInner(m);
    OneOp(Enter(m.nextScope), m.chain);
    assert LeadsTo(Meaning(depth, i, m), depth, EffectAt(i, rest, m), m.chain, rest, Inner(m), i.body);
  }

  lemma EndRule(depth: nat, i: Instr, rest: seq<Instr>, m: Memory)
    requires i.EndBlock? && depth > 0 && m.chain != []
    ensures Follows(depth, i, rest, m)
  {
    var m' := m.(chain := m.chain[..|m.chain| - 1]);
    NoMore(depth - 1, rest, m');
    OneOp(Leave, m.chain);
    assert LeadsTo(Meaning(depth, i, m), depth, EffectAt(i, rest, m), m.chain, rest, m', []);
  }

  lemma DeclarationRule(depth: nat, i: Instr, rest: seq<Instr>, m: Memory)
    requires i.VariableDeclaration? && depth > 0 && m.chain != []
    ensures Follows(depth, i, rest, m)
  {
    hide ValueOf, Evaluate, EnvChain;
    ValueIs(i.expression, m.chain);
    var o, value := Meaning(depth, i, m), ValueOf(i.expression, m.chain);
    if o.Done? {
      NoMore(depth - 1, rest, o.memory);
      OneOp(NewVariable(i.name, value.value), m.chain);
      assert LeadsTo(o, depth, EffectAt(i, rest, m), m.chain, rest, o.memory, []);
    }
  }

  lemma AssignmentRule(depth: nat, i: Instr, rest: seq<Instr>, m: Memory)
    requires i.AssignVariableValue? && depth > 0 && m.chain != []
    ensures Follows(depth, i, rest, m)
  {
    hide ValueOf, Evaluate, EnvChain;
    ValueIs(i.expression, m.chain);
    NearestEnv(m.chain, i.name);
    var o, value := Meaning(depth, i, m), ValueOf(i.expression, m.chain);
    if o.Done? {
      NoMore(depth - 1, rest, o.memory);
      OneOp(SetVariable(i.name, value.value), m.chain);
      AssignedAt(m.chain, i.name, value.value, Nearest(m.chain, i.name));
      assert LeadsTo(o, depth, EffectAt(i, rest, m), m.chain, rest, o.memory, []);
    }
  }

  lemma PrintRule(depth: nat, i: Instr, rest: seq<Instr>, m: Memory)
    requires i.Print? && depth > 0 && m.chain != []
    ensures Follows(depth, i, rest, m)
  {
    hide ValueOf, Evaluate, EnvChain;
    ValueIs(i.expression, m.chain);
    var o := Meaning(depth, i, m);
    if o.Done? {
      NoMore(depth - 1, rest, o.memory);
      assert LeadsTo(o, depth, EffectAt(i, rest, m), m.chain, rest, o.memory, []);
    }
  }

  lemma IfElseRule(depth: nat, i: Instr, rest: seq<Instr>, m: Memory)
    requires i.IfElseStatement? && depth > 0 && m.chain != []
    ensures Follows(depth, i, rest, m)
  {
    hide ValueOf, Evaluate, EnvChain, Compares, Holds, Reverse, MeaningAll;
    var o, a, b := Meaning(depth, i, m), ValueOf(i.left, m.chain), ValueOf(i.right, m.chain);
    ValueIs(i.left, m.chain);
    ValueIs(i.right, m.chain);
    if a.Some? && b.Some? {
      ComparesIs(a.value, i.condition, b.value);
      var branch := if Compares(a.value, i.condition, b.value) then i.whenTrue else i.whenFalse;
      assert LeadsTo(o, depth, EffectAt(i, rest, m), m.chain, rest, m, branch);
    }
  }

  lemma ProcedureRule(depth: nat, i: Instr, rest: seq<Instr>, m: Memory)
    requires i.ProcedureDeclaration? && depth > 0 && m.chain != []
    ensures Follows(depth, i, rest, m)
  {
    hide EnvChain;
    var o := Meaning(depth, i, m);
    if o.Done? {
      NoMore(depth - 1, rest, o.memory);
      OneOp(SetProcedure(i.procedure, i), m.chain);
      assert LeadsTo(o, depth, EffectAt(i, rest, m), m.chain, rest, o.memory, []);
    }
  }

  lemma {:induction false} ArgumentsRule(names: seq<char>, arguments: seq<Expr>, c: Chain)
    requires |names| == |arguments| && c != []
    ensures var bound, c' := Bound(names, arguments, EnvChain(c)), WithArguments(names, arguments, c);
      && bound.1 == c'.Some?
      && (bound.1 && AppliesAllChain(bound.0, c) ==> ApplyAllChain(bound.0, c) == c'.value)
    decreases |names|
  {
    hide ValueOf, Evaluate;
    if names != [] {
      ValueIs(arguments[0], c);
      var x := ValueOf(arguments[0], c);
      if x.Some? {
        var d := Declared(c, names[0], x.value);
        DeclaredEnv(c, names[0], x.value);
        ArgumentsRule(names[1..], arguments[1..], d);
        var op, ops := NewVariable(names[0], x.value), Bound(names[1..], arguments[1..], EnvChain(d)).0;
        if AppliesAllChain([op] + ops, c) { MoreOps(op, ops, c); }
      }
    }
  }

  lemma DeclaredEnv(c: Chain, name: char, value: Int32)
    requires c != []
    ensures EnvChain(Declared(c, name, value)) == EnvChain(c)[name := value]
    ensures Declared(c, name, value) == ApplyChain(NewVariable(name, value), c)
  {
    var d := Declared(c, name, value);
    assert d[..|d| - 1] == c[..|c| - 1];
  }

  lemma CallRule(depth: nat, i: Instr, rest: seq<Instr>, m: Memory)
    requires i.ProcedureInvoke? && depth > 0 && m.chain != []
    ensures Follows(depth, i, rest, m)
  {
    hide EnvChain, Reverse, WithArguments, Bound, MeaningAll;
    var procedures := Here(m.chain).procedures;
    if i.procedure in procedures && procedures[i.procedure].ProcedureDeclaration?
      && |procedures[i.procedure].parameters| == |i.arguments| {
      var p := procedures[i.procedure];
      EnterIsInner(m);
      ArgumentsRule(p.parameters, i.arguments, Inner(m).chain);
      var ops := Bound(p.parameters, i.arguments, EnvChain(m.chain)).0;
      if AppliesAllChain([Enter(m.nextScope)] + ops, m.chain) { MoreOps(Enter(m.nextScope), ops, m.chain); }
      var chain := WithArguments(p.parameters, i.arguments, Inner(m).chain);
      if chain.Some? {
        var m' := Inner(m).(chain := chain.value);
        assert LeadsTo(Meaning(depth, i, m), depth, EffectAt(i, rest, m), m.chain, rest, m', p.body);
      }
    }
  }

  lemma {:induction false} ReverseConcat(a: seq<Instr>, b: seq<Instr>)
    ensures Reverse(a + b) == Reverse(b) + Reverse(a)
  {
    if a == [] {
      assert a + b == b;
    } else {
      assert (a + b)[1..] == a[1..] + b;
      ReverseConcat(a[1..], b);
    }
  }

  lemma LoopWithIs(m: Memory, loop: nat, first: Instr)
    ensures LoopWith(m, loop, first) == WithFirst(m.loops, loop, first)
  {
  }

  lemma LoopRule(depth: nat, i: Instr, rest: seq<Instr>, m: Memory)
    requires i.ForLoop? && depth > 0 && m.chain != []
    ensures Follows(depth, i, rest, m)
  {
    hide ValueOf, Evaluate, EnvChain, Reverse, MeaningAll;
    ValueIs(i.bound, m.chain);
    var o, e, times := Meaning(depth, i, m), EffectAt(i, rest, m), ValueOf(i.bound, m.chain);
    if times.Some? {
      var list := LoopWith(m, i.loop, VariableDeclaration(i.counter, Constant(0)))
                  + [EndForLoop(i.loop, times.value, i.counter)];
      var inner := Inner(m).(loops := m.loops[i.loop := list]);
      LoopWithIs(m, i.loop, VariableDeclaration(i.counter, Constant(0)));
      EnterIsInner(m);
      OneEnd();
      if times.value <= 0 {
        OneOp(Enter(m.nextScope), m.chain);
        assert LeadsTo(o, depth, e, m.chain, rest, inner, [EndBlock]);
      } else {
        OneOp(NextIteration, Inner(m).chain);
        ReverseConcat(list, [EndBlock]);
        assert rest + [EndBlock] + Reverse(list) == rest + ([EndBlock] + Reverse(list));
        var ops := [Enter(m.nextScope)] + [NextIteration];
        assert ops == [Enter(m.nextScope), NextIteration];
        if AppliesAllChain(ops, m.chain) { MoreOps(Enter(m.nextScope), [NextIteration], m.chain); }
        assert LeadsTo(o, depth, e, m.chain, rest, inner.(chain := Counted(inner.chain)), list + [EndBlock]);
      }
    }
  }

  lemma EndLoopRule(depth: nat, i: Instr, rest: seq<Instr>, m: Memory)
    requires i.EndForLoop? && depth > 0 && m.chain != []
    ensures Follows(depth, i, rest, m)
  {
    hide EnvChain, Reverse, MeaningAll;
    var o, e, done := Meaning(depth, i, m), EffectAt(i, rest, m), Here(m.chain).iteration;
    if done >= i.times {
      NoMore(depth - 1, rest, m);
      NoOps(m.chain);
      assert LeadsTo(o, depth, e, m.chain, rest, m, []);
    } else {
      var list := LoopWith(m, i.loop, AssignVariableValue(i.counter, Constant(done)));
      LoopWithIs(m, i.loop, AssignVariableValue(i.counter, Constant(done)));
      OneOp(NextIteration, m.chain);
      assert LeadsTo(o, depth, e, m.chain, rest, m.(loops := m.loops[i.loop := list], chain := Counted(m.chain)), list);
    }
  }

  lemma AnyRule(depth: nat, i: Instr, rest: seq<Instr>, m: Memory)
    requires depth > 0 && (m.chain != [] || i.Block?)
    ensures Follows(depth, i, rest, m)
  {
    hide *;
    match i
    case Block(_) => BlockRule(depth, i, rest, m);
    case EndBlock => EndRule(depth, i, rest, m);
    case VariableDeclaration(_, _) => DeclarationRule(depth, i, rest, m);
    case AssignVariableValue(_, _) => AssignmentRule(depth, i, rest, m);
    case Print(_) => PrintRule(depth, i, rest, m);
    case IfElseStatement(_, _, _, _, _) => IfElseRule(depth, i, rest, m);
    case ProcedureDeclaration(_, _, _, _, _, _) => ProcedureRule(depth, i, rest, m);
    case ProcedureInvoke(_, _) => CallRule(depth, i, rest, m);
    case ForLoop(_, _, _) => LoopRule(depth, i, rest, m);
    case EndForLoop(_, _, _) => EndLoopRule(depth, i, rest, m);
  }

  // ----- the machine does what the program means

  lemma StepThen(s: State, rest: seq<Instr>, i: Instr, m: Memory, m': Memory, list: seq<Instr>) returns (t: State)
    requires At(s, rest + [i], m) && GoesOn(EffectAt(i, rest, m), m.chain, rest, m', list)
    ensures Goes(s, 1, t) && At(t, rest + Reverse(list), m')
  {
    hide Inv, Execute, Reverse, AppliesAllChain, ApplyAllChain;
    StepAt(s, rest, i, m);
    t := Step(s).0;
    assert Goes(t, 0, t);
  }

  lemma StepReady(s: State, rest: seq<Instr>, i: Instr, m: Memory)
    requires At(s, rest + [i], m)
    ensures m.chain != [] || i.Block?
  {
    hide Inv, Abs, EffectAt;
    StepAt(s, rest, i, m);
  }

  lemma NoDepth(i: Instr, m: Memory, s: State, rest: seq<Instr>)
    ensures Agrees(Meaning(0, i, m), 0, s, rest)
  {
    assert Goes(s, 0, s);
  }

  lemma Fails(s: State, rest: seq<Instr>, i: Instr, m: Memory, depth: nat)
    requires At(s, rest + [i], m) && !EffectAt(i, rest, m).ok
    ensures Agrees(Failure(m.printed), depth, s, rest)
  {
    hide CanStep, Step, EffectAt, Inv, Abs;
    StepAt(s, rest, i, m);
    assert Goes(s, 0, s) && FailsAt(s, m.printed);
  }

  lemma Onward(s: State, t: State, n: nat, o: Outcome, depth: nat, rest: seq<Instr>)
    requires Goes(s, n, t) && Agrees(o, depth, t, rest)
    ensures Agrees(o, n + depth, s, rest)
  {
    hide Goes, At, FailsAt;
    match o
    case Done(m) =>
      var k, u :| Goes(t, k, u) && At(u, rest, m);
      GoesTrans(s, n, t, k, u);
    case Failure(printed) =>
      var k, u :| Goes(t, k, u) && FailsAt(u, printed);
      GoesTrans(s, n, t, k, u);
    case Unfinished =>
      var u :| Goes(t, depth, u);
      GoesTrans(s, n, t, depth, u);
  }

  lemma {:induction false} GoesPart(s: State, n: nat, k: nat, u: State)
    requires Goes(s, n + k, u)
    ensures exists t :: Goes(s, n, t) && Goes(t, k, u)
    decreases n
  {
    hide Sound, Step;
    if n == 0 {
      assert Goes(s, 0, s);
    } else {
      GoesPart(Step(s).0, n - 1, k, u);
      var t :| Goes(Step(s).0, n - 1, t) && Goes(t, k, u);
      assert Goes(s, n, t);
    }
  }

  lemma Shallower(o: Outcome, n: nat, depth: nat, s: State, rest: seq<Instr>)
    requires Agrees(o, n + depth, s, rest)
    ensures Agrees(o, depth, s, rest)
  {
    hide Goes, At, FailsAt;
    if o == Unfinished {
      var u :| Goes(s, n + depth, u);
      GoesPart(s, depth, n, u);
    }
  }

  /** The machine, with an instruction on top of its stack: it comes down to the rest of the stack
      with the memory that the instruction means, or fails with the output it means. */
  lemma {:induction false} MeaningRuns(depth: nat, i: Instr, m: Memory, s: State, rest: seq<Instr>)
    requires At(s, rest + [i], m)
    ensures Agrees(Meaning(depth, i, m), depth, s, rest)
    decreases depth, 0
  {
    hide At, Goes, GoesOn, EffectAt, Execute, Reverse, MeaningAll, Meaning, Agrees;
    StepReady(s, rest, i, m);
    if depth == 0 {
      NoDepth(i, m, s, rest);
    } else {
      AnyRule(depth, i, rest, m);
      var o, e := Meaning(depth, i, m), EffectAt(i, rest, m);
      if !e.ok && o == Failure(m.printed) {
        Fails(s, rest, i, m, depth);
      } else {
        var m', list :| LeadsTo(o, depth, e, m.chain, rest, m', list);
        var t := StepThen(s, rest, i, m, m', list);
        MeaningAllRuns(depth - 1, list, m', t, rest);
        Onward(s, t, 1, o, depth - 1, rest);
      }
    }
  }

  lemma {:induction false} MeaningAllRuns(depth: nat, list: seq<Instr>, m: Memory, s: State, rest: seq<Instr>)
    requires At(s, rest + Reverse(list), m)
    ensures Agrees(MeaningAll(depth, list, m), depth, s, rest)
    decreases depth, |list|
  {
    hide At, Goes, Meaning;
    if list == [] {
      NoMore(depth, rest, m);
      Stays(s);
    } else {
      var rest' := rest + Reverse(list[1..]);
      assert rest + Reverse(list) == rest' + [list[0]];
      MeaningRuns(depth, list[0], m, s, rest');
      var o := Meaning(depth, list[0], m);
      if o.Done? {
        var n, t :| Goes(s, n, t) && At(t, rest', o.memory);
        MeaningAllRuns(depth, list[1..], o.memory, t, rest);
        Onward(s, t, n, MeaningAll(depth, list[1..], o.memory), depth, rest);
        Shallower(MeaningAll(depth, list[1..], o.memory), n, depth, s, rest);
      }
    }
  }

  // ----- whole programs

  function MemoryOf(c: Control): Memory {
    Memory([], c.loops, c.declaredIn, c.nextFrame, c.printed)
  }

  /** The machine runs to its end and has then printed this. */
  ghost predicate Prints(s: State, printed: seq<Int32>) {
    exists n, t :: Goes(s, n, t) && t.control.stack == [] && t.control.printed == printed
  }

  /** The machine runs into an exception and has printed this before. */
  ghost predicate Throws(s: State, printed: seq<Int32>) {
    exists n, t :: Goes(s, n, t) && FailsAt(t, printed)
  }

  ghost predicate MeansDone(program: Instr, m: Memory, printed: seq<Int32>) {
    exists depth :: Meaning(depth, program, m).Done? && Meaning(depth, program, m).memory.printed == printed
  }

  ghost predicate MeansFailure(program: Instr, m: Memory, printed: seq<Int32>) {
    exists depth :: Meaning(depth, program, m) == Failure(printed)
  }

  predicate Halted(s: State) {
    s.control.stack == []
  }

  /** Where the machine cannot go on it has done as many steps as it ever does. */
  lemma {:induction false} NoFurther(s: State, n: nat, t: State, k: nat, u: State)
    requires Goes(s, n, t) && !(CanStep(t) && Step(t).1) && Goes(s, k, u)
    ensures k <= n && (k == n ==> u == t)
    decreases n
  {
    hide Sound, Step;
    if n > 0 && k > 0 { NoFurther(Step(s).0, n - 1, t, k - 1, u); }
  }

  lemma ProgramAgrees(s: State, depth: nat)
    requires Started(s)
    ensures Agrees(Meaning(depth, s.control.stack[0], MemoryOf(s.control)), depth, s, [])
  {
    hide Started, Meaning, Agrees, Goes;
    StartedAt(s);
    assert [] + [s.control.stack[0]] == [s.control.stack[0]];
    MeaningRuns(depth, s.control.stack[0], MemoryOf(s.control), s, []);
  }

  lemma StartedAt(s: State)
    requires Started(s)
    ensures |s.control.stack| == 1 && At(s, [s.control.stack[0]], MemoryOf(s.control))
  {
    hide WellFormed, LoopsOk;
    RunInv([s], 0);
    AbsEmpty(s);
    assert s.control.stack == [s.control.stack[0]];
  }

  /** A run to the end has printed what the program means, looked at as deep as the run is long. */
  lemma FinishedMeans(s: State, n: nat, t: State)
    requires Started(s) && Goes(s, n, t) && Halted(t)
    ensures var o := Meaning(n + 1, s.control.stack[0], MemoryOf(s.control));
      o.Done? && o.memory.chain == [] && o.memory.printed == t.control.printed
  {
    hide Started, Meaning, Goes, Step, Inv;
    StartedAt(s);
    var o := Meaning(n + 1, s.control.stack[0], MemoryOf(s.control));
    ProgramAgrees(s, n + 1);
    match o
    case Done(m) =>
      var k, u :| Goes(s, k, u) && At(u, [], m);
      NoFurther(s, n, t, k, u);
      NoFurther(s, k, u, n, t);
      assert Inv(u);
      HaltedEmpty(u);
    case Failure(printed) =>
      var k, u :| Goes(s, k, u) && FailsAt(u, printed);
      NoFurther(s, n, t, k, u);
      NoFurther(s, k, u, n, t);
    case Unfinished =>
      var u :| Goes(s, n + 1, u);
      NoFurther(s, n, t, n + 1, u);
  }

  lemma HaltedEmpty(s: State)
    requires Inv(s) && Halted(s)
    ensures Abs(s.flat) == []
  {
    EndsNone();
    AbsEmpty(s);
  }

  lemma FailedMeans(s: State, n: nat, t: State)
    requires Started(s) && Goes(s, n, t) && FailsAt(t, t.control.printed)
    ensures Meaning(n + 1, s.control.stack[0], MemoryOf(s.control)) == Failure(t.control.printed)
  {
    hide Started, Meaning, Goes, Step, Inv;
    StartedAt(s);
    var o := Meaning(n + 1, s.control.stack[0], MemoryOf(s.control));
    ProgramAgrees(s, n + 1);
    match o
    case Done(m) =>
      var k, u :| Goes(s, k, u) && At(u, [], m);
      NoFurther(s, n, t, k, u);
      NoFurther(s, k, u, n, t);
    case Failure(printed) =>
      var k, u :| Goes(s, k, u) && FailsAt(u, printed);
      NoFurther(s, n, t, k, u);
      NoFurther(s, k, u, n, t);
    case Unfinished =>
      var u :| Goes(s, n + 1, u);
      NoFurther(s, n, t, n + 1, u);
  }

  /** For every program: the machine runs to its end with this output if and only if that is what
      the program means, and into an exception after this output if and only if that is. */
  lemma ProgramMeans(s: State, printed: seq<Int32>)
    requires Started(s)
    ensures Prints(s, printed) <==> MeansDone(s.control.stack[0], MemoryOf(s.control), printed)
    ensures Throws(s, printed) <==> MeansFailure(s.control.stack[0], MemoryOf(s.control), printed)
  {
    hide Meaning, Goes, Started;
    StartedAt(s);
    var i, m := s.control.stack[0], MemoryOf(s.control);
    if Prints(s, printed) {
      var n, t :| Goes(s, n, t) && t.control.stack == [] && t.control.printed == printed;
      FinishedMeans(s, n, t);
    }
    if Throws(s, printed) {
      var n, t :| Goes(s, n, t) && FailsAt(t, printed);
      FailedMeans(s, n, t);
    }
    if MeansDone(i, m, printed) {
      var depth :| Meaning(depth, i, m).Done? && Meaning(depth, i, m).memory.printed == printed;
      ProgramAgrees(s, depth);
    }
    if MeansFailure(i, m, printed) {
      var depth :| Meaning(depth, i, m) == Failure(printed);
      ProgramAgrees(s, depth);
    }
  }

  /** Runs as the debugger makes them. */
  lemma {:induction false} RunGoes(states: seq<State>, k: nat)
    requires Run(states) && k < |states|
    ensures Goes(states[0], k, states[k])
  {
    hide Sound, Step;
    if k == 0 {
      Stays(states[0]);
    } else {
      RunGoes(states, k - 1);
      RunStep(states, k - 1);
      Stays(states[k]);
      assert Goes(states[k - 1], 1, states[k]);
      GoesTrans(states[0], k - 1, states[k - 1], 1, states[k]);
    }
  }

  /** What a run of the debugger has printed when the stack is empty is what the program means. */
  lemma RunMeans(states: seq<State>)
    requires Run(states) && Started(states[0]) && Halted(states[|states| - 1])
    ensures MeansDone(states[0].control.stack[0], MemoryOf(states[0].control), states[|states| - 1].control.printed)
  {
    hide Started, Meaning, Goes;
    RunGoes(states, |states| - 1);
    FinishedMeans(states[0], |states| - 1, states[|states| - 1]);
  }
}
