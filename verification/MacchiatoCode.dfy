/** The instructions of Macchiato and what each does, seen from the frame on top. */
module MacchiatoCode {
  import opened Prelude

  type Int32 = x: int | -0x8000_0000 <= x < 0x8000_0000

  // ----- expressions

  datatype Expr =
    | Constant(value: Int32)
    | GetVariable(name: char)
    | Add(left: Expr, right: Expr)
    | Subtract(left: Expr, right: Expr)
    | Multiply(left: Expr, right: Expr)
    | Divide(left: Expr, right: Expr)
    | Modulo(left: Expr, right: Expr)

  /** Sums, differences and products wrap around at 32 bits. */
  function Wrap(x: int): Int32 {
    (x + 0x8000_0000) % 0x1_0000_0000 - 0x8000_0000
  }

  function Floor(a: int, b: int): int
    requires b != 0
  {
    if b > 0 then a / b else (-a) / (-b)
  }

  /** The quotient is rounded down; the one that does not fit becomes the greatest number. */
  function FloorDivide(a: Int32, b: Int32): Int32
    requires b != 0
  {
    if Floor(a, b) == 0x8000_0000 then 0x7fff_ffff
    else
      QuotientFits(a, b);
      Floor(a, b)
  }

  lemma QuotientFits(a: Int32, b: Int32)
    requires b != 0
    ensures -0x8000_0000 <= Floor(a, b) <= 0x8000_0000
    ensures Floor(a, b) == 0x8000_0000 <==> a == -0x8000_0000 && b == -1
  {
    if b > 0 { QuotientSmaller(a, b); } else { QuotientSmaller(-(a as int), -(b as int)); }
  }

  lemma QuotientSmaller(n: int, d: int)
    requires d > 0
    ensures n >= 0 ==> 0 <= n / d <= n && (n / d == n <==> n == 0 || d == 1)
    ensures n < 0 ==> n <= n / d < 0
  {
    var q := n / d;
    assert n == q * d + n % d;
    if n >= 0 {
      MulGrows(q, d);
    } else {
      MulGrows(-q - 1, d);
      assert (-q - 1) * d == -(q * d) - d;
    }
  }

  lemma MulGrows(q: int, d: int)
    requires q >= 0 && d > 0
    ensures q * d >= q && (d > 1 && q > 0 ==> q * d > q)
  {
    assert q * d == q + q * (d - 1);
    assert q * (d - 1) >= 0;
    if d > 1 && q > 0 { assert q * (d - 1) >= q; }
  }

  /** The remainder takes the sign of the dividend. */
  function Remainder(a: Int32, b: Int32): Int32
    requires b != 0
  {
    var n: int, m: int := a, if b > 0 then b as int else 0 - b;
    if n >= 0 then n % m else -((-n) % m)
  }

  function Evaluate(e: Expr, env: map<char, Int32>): Option<Int32> {
    match e
    case Constant(value) => Some(value)
    case GetVariable(name) => if name in env then Some(env[name]) else None
    case Add(l, r) => Both(Evaluate(l, env), Evaluate(r, env), (a, b) => Some(Wrap(a + b)))
    case Subtract(l, r) => Both(Evaluate(l, env), Evaluate(r, env), (a, b) => Some(Wrap(a - b)))
    case Multiply(l, r) => Both(Evaluate(l, env), Evaluate(r, env), (a, b) => Some(Wrap(a * b)))
    case Divide(l, r) => Both(Evaluate(l, env), Evaluate(r, env), (a: Int32, b: Int32) => if b == 0 then None else Some(FloorDivide(a, b)))
    case Modulo(l, r) => Both(Evaluate(l, env), Evaluate(r, env), (a: Int32, b: Int32) => if b == 0 then None else Some(Remainder(a, b)))
  }

  function Both(l: Option<Int32>, r: Option<Int32>, f: (Int32, Int32) -> Option<Int32>): Option<Int32> {
    if l.None? || r.None? then None else f(l.value, r.value)
  }

  // ----- instructions

  datatype Condition = Equals | NotEqual | LessThan | GreaterThan | SmallerEqual | GreaterEqual

  /** Bodies of blocks and procedures end with an `EndBlock`. A loop keeps its instructions in a
      list that it shares with the `EndForLoop`s it makes and is known here by a number; a
      procedure declaration is an object that remembers where it was last executed, known by
      its name and a number. */
  datatype Instr =
    | Block(body: seq<Instr>)
    | EndBlock
    | VariableDeclaration(name: char, expression: Expr)
    | AssignVariableValue(name: char, expression: Expr)
    | IfElseStatement(left: Expr, condition: Condition, right: Expr, whenTrue: seq<Instr>, whenFalse: seq<Instr>)
    | ForLoop(loop: nat, counter: char, bound: Expr)
    | EndForLoop(loop: nat, times: Int32, counter: char)
    | ProcedureDeclaration(id: nat, procedure: string, parameters: seq<char>, doubleParameter: bool,
                           invalidName: bool, body: seq<Instr>)
    | ProcedureInvoke(procedure: string, arguments: seq<Expr>)
    | Print(expression: Expr)

  type Object = (string, nat)

  function ObjectOf(p: Instr): Object
    requires p.ProcedureDeclaration?
  {
    (p.procedure, p.id)
  }

  predicate Holds(condition: Condition, a: Int32, b: Int32) {
    match condition
    case Equals => a == b
    case NotEqual => a != b
    case LessThan => a < b
    case GreaterThan => a > b
    case SmallerEqual => a <= b
    case GreaterEqual => a >= b
  }

  predicate Letter(name: char) {
    'a' <= name <= 'z'
  }

  /** Everything but the frames. The top of the instruction stack is its last element. */
  datatype Control = Control(stack: seq<Instr>, loops: map<nat, seq<Instr>>, declaredIn: map<Object, nat>,
                             nextFrame: nat, printed: seq<Int32>)

  function Reverse(s: seq<Instr>): (r: seq<Instr>)
    ensures |r| == |s|
  {
    if s == [] then [] else Reverse(s[1..]) + [s[0]]
  }

  /** Pushes instructions from the last to the first, so that the first is executed first. */
  function Push(c: Control, s: seq<Instr>): Control {
    c.(stack := c.stack + Reverse(s))
  }

  /** What an instruction sees of the frames. */
  datatype View = View(env: map<char, Int32>, own: set<char>, procedures: map<string, Instr>, id: nat, iteration: nat)

  /** What an instruction does to the frames, one after another. */
  datatype Op =
    | Enter(id: nat)
    | Leave
    | NewVariable(name: char, value: Int32)
    | SetVariable(name: char, value: Int32)
    | SetProcedure(procedure: string, declaration: Instr)
    | NextIteration

  datatype Effect = Effect(ops: seq<Op>, control: Control, ok: bool)

  function Failed(c: Control): Effect {
    Effect([], c, false)
  }

  /** The parameters are bound one after another in the new frame, each with the earlier ones
      in sight, up to the first argument that cannot be evaluated. */
  function Bound(names: seq<char>, arguments: seq<Expr>, env: map<char, Int32>): (r: (seq<Op>, bool))
    requires |names| == |arguments|
    ensures forall op :: op in r.0 ==> op.NewVariable?
    decreases |names|
  {
    if names == [] then ([], true)
    else
      match Evaluate(arguments[0], env)
      case None => ([], false)
      case Some(x) =>
        var rest := Bound(names[1..], arguments[1..], env[names[0] := x]);
        ([NewVariable(names[0], x)] + rest.0, rest.1)
  }

  /** The list of a loop with another first element. */
  function WithFirst(loops: map<nat, seq<Instr>>, loop: nat, first: Instr): seq<Instr> {
    if loop in loops && loops[loop] != [] then [first] + loops[loop][1..] else [first]
  }

  /** The effect of an instruction that has been taken off the stack. A failed instruction may
      have changed something before it failed. */
  function Execute(i: Instr, v: View, c: Control): Effect {
    match i
    case Block(body) => Effect([Enter(c.nextFrame)], Push(c, body).(nextFrame := c.nextFrame + 1), true)
    case EndBlock => Effect([Leave], c, true)
    case VariableDeclaration(name, expression) =>
      if !Letter(name) || name in v.own then Failed(c)
      else
        (match Evaluate(expression, v.env)
         case None => Failed(c)
         case Some(x) => Effect([NewVariable(name, x)], c, true))
    case AssignVariableValue(name, expression) =>
      if !Letter(name) || name !in v.env then Failed(c)
      else
        (match Evaluate(expression, v.env)
         case None => Failed(c)
         case Some(x) => Effect([SetVariable(name, x)], c, true))
    case IfElseStatement(left, condition, right, whenTrue, whenFalse) =>
      var l, r := Evaluate(left, v.env), Evaluate(right, v.env);
      if l.None? || r.None? then Failed(c)
      else Effect([], Push(c, if Holds(condition, l.value, r.value) then whenTrue else whenFalse), true)
    case ForLoop(loop, counter, bound) =>
      (match Evaluate(bound, v.env)
       case None => Failed(c)
       case Some(times) =>
         var list := WithFirst(c.loops, loop, VariableDeclaration(counter, Constant(0))) + [EndForLoop(loop, times, counter)];
         var entered := Push(c, [EndBlock]).(loops := c.loops[loop := list], nextFrame := c.nextFrame + 1);
         if 0 < times then Effect([Enter(c.nextFrame), NextIteration], Push(entered, list), true)
         else Effect([Enter(c.nextFrame)], entered, true))
    case EndForLoop(loop, times, counter) =>
      if v.iteration < times then
        var list := WithFirst(c.loops, loop, AssignVariableValue(counter, Constant(v.iteration)));
        Effect([NextIteration], Push(c.(loops := c.loops[loop := list]), list), true)
      else Effect([], c, true)
    case ProcedureDeclaration(_, procedure, _, doubleParameter, invalidName, _) =>
      if doubleParameter || invalidName then Failed(c)
      else
        var declared := c.(declaredIn := c.declaredIn[ObjectOf(i) := v.id]);
        if procedure !in v.procedures || !DeclaredHere(v.procedures[procedure], declared, v.id)
        then Effect([SetProcedure(procedure, i)], declared, true)
        else Effect([], declared, false)
    case ProcedureInvoke(procedure, arguments) =>
      if procedure !in v.procedures || !v.procedures[procedure].ProcedureDeclaration? then Failed(c)
      else
        var p := v.procedures[procedure];
        var entered := c.(nextFrame := c.nextFrame + 1);
        if |p.parameters| != |arguments| then Effect([Enter(c.nextFrame)], entered, false)
        else
          var bound := Bound(p.parameters, arguments, v.env);
          Effect([Enter(c.nextFrame)] + bound.0, if bound.1 then Push(entered, p.body) else entered, bound.1)
    case Print(expression) =>
      (match Evaluate(expression, v.env)
       case None => Failed(c)
       case Some(x) => Effect([], c.(printed := c.printed + [x]), true))
  }

  predicate DeclaredHere(p: Instr, c: Control, frame: nat) {
    p.ProcedureDeclaration? && ObjectOf(p) in c.declaredIn && c.declaredIn[ObjectOf(p)] == frame
  }

  // ----- which programs are balanced

  function Ends(s: seq<Instr>): nat {
    if s == [] then 0 else Ends(s[..|s| - 1]) + if s[|s| - 1] == EndBlock then 1 else 0
  }

  /** Blocks and procedures close themselves, and nothing else closes a block. */
  predicate WellFormed(i: Instr)
    decreases i
  {
    match i
    case Block(body) => Closed(body)
    case ProcedureDeclaration(_, _, _, _, _, body) => Closed(body)
    case IfElseStatement(_, _, _, whenTrue, whenFalse) => Plain(whenTrue) && Plain(whenFalse)
    case _ => true
  }

  predicate Plain(s: seq<Instr>)
    decreases s
  {
    forall i :: 0 <= i < |s| ==> s[i] != EndBlock && WellFormed(s[i])
  }

  predicate Closed(s: seq<Instr>)
    decreases s
  {
    && s != [] && s[|s| - 1] == EndBlock
    && forall i :: 0 <= i < |s| - 1 ==> s[i] != EndBlock && WellFormed(s[i])
  }
}
