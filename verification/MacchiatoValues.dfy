/** What expressions and conditions mean over a chain of scopes, said without computing: which
    number an expression denotes, and when a condition holds. */
module MacchiatoValues {
  import opened MacchiatoCode
  import opened Macchiato
  import opened Prelude

  const WORD := 0x1_0000_0000

  /** The innermost scope that declares the name. */
  function Nearest(c: Chain, name: char): (k: int)
    ensures -1 <= k < |c| && (k >= 0 ==> name in c[k].own)
    ensures forall j :: k < j < |c| ==> name !in c[j].own
  {
    if c == [] then -1
    else if name in c[|c| - 1].own then |c| - 1
    else Nearest(c[..|c| - 1], name)
  }

  /** The same number but for a multiple of the word size. */
  predicate Congruent(v: int, x: int) { (x - v) % WORD == 0 }

  /** The quotient rounded down; the one that is too great becomes the greatest number. */
  predicate IsQuotient(v: int, a: int, b: int) {
    if a == -0x8000_0000 && b == -1 then v == 0x7fff_ffff
    else if b > 0 then v * b <= a < v * b + b
    else b < 0 && v * b + b < a <= v * b
  }

  /** What division leaves, with the sign of the dividend. */
  predicate IsRemainder(v: int, a: int, b: int) {
    && b != 0 && (a - v) % b == 0
    && -Magnitude(b) < v < Magnitude(b) && (a >= 0 ==> v >= 0) && (a <= 0 ==> v <= 0)
  }

  function Magnitude(x: int): int { if x < 0 then -x else x }

  ghost predicate Denotes(e: Expr, c: Chain, v: Int32) {
    match e
    case Constant(value) => v == value
    case GetVariable(name) => var k := Nearest(c, name); k >= 0 && v == c[k].own[name]
    case Add(l, r) =>
      exists a: Int32, b: Int32 :: Denotes(l, c, a) && Denotes(r, c, b) && Congruent(v, a as int + b as int)
    case Subtract(l, r) =>
      exists a: Int32, b: Int32 :: Denotes(l, c, a) && Denotes(r, c, b) && Congruent(v, a as int - b as int)
    case Multiply(l, r) =>
      exists a: Int32, b: Int32 :: Denotes(l, c, a) && Denotes(r, c, b) && Congruent(v, a as int * b as int)
    case Divide(l, r) =>
      exists a: Int32, b: Int32 :: Denotes(l, c, a) && Denotes(r, c, b) && IsQuotient(v, a, b)
    case Modulo(l, r) =>
      exists a: Int32, b: Int32 :: Denotes(l, c, a) && Denotes(r, c, b) && IsRemainder(v, a, b)
  }

  /** The number an expression denotes, if any. */
  ghost function ValueOf(e: Expr, c: Chain): Option<Int32> {
    if exists v: Int32 :: Denotes(e, c, v) then
      var v: Int32 :| Denotes(e, c, v);
      Some(v)
    else None
  }

  predicate Compares(a: int, condition: Condition, b: int) {
    match condition
    case Equals => a - b == 0
    case NotEqual => a - b > 0 || b - a > 0
    case LessThan => b - a > 0
    case GreaterThan => a - b > 0
    case SmallerEqual => !(a - b > 0)
    case GreaterEqual => !(b - a > 0)
  }

  // ----- the program's evaluation is that

  lemma {:induction false} NearestEnv(c: Chain, name: char)
    ensures name in EnvChain(c) <==> Nearest(c, name) >= 0
    ensures name in EnvChain(c) ==> EnvChain(c)[name] == c[Nearest(c, name)].own[name]
  {
    if c != [] { NearestEnv(c[..|c| - 1], name); }
  }

  lemma WrapIs(x: int, v: Int32)
    ensures Congruent(v, x) <==> v == Wrap(x)
  {
    var m := x + 0x8000_0000;
    assert m == m / WORD * WORD + m % WORD;
    assert x - Wrap(x) == m / WORD * WORD;
    if Congruent(v, x) {
      var k := (x - v) / WORD;
      assert x - v == k * WORD;
      assert (k - m / WORD) * WORD == Wrap(x) - v;
    } else {
      assert m / WORD * WORD % WORD == 0;
    }
  }

  lemma Multiple(q: int, d: int)
    requires d > 0
    ensures q >= 1 ==> q * d >= d
    ensures q <= -1 ==> q * d <= -d
  {
    assert q * d == (q - 1) * d + d == (q + 1) * d - d;
    if q >= 1 { assert (q - 1) * d >= 0; }
    if q <= -1 { assert (-q - 1) * d >= 0; }
  }

  lemma Between(q: int, d: int, x: int)
    requires d > 0 && -d < x < d && q * d == x
    ensures q == 0
  {
    Multiple(q, d);
  }

  lemma QuotientAbove(a: int, b: int, v: int)
    requires b > 0
    ensures v * b <= a < v * b + b <==> v == a / b
  {
    var q := a / b;
    assert a == q * b + a % b;
    if v * b <= a < v * b + b {
      assert (q - v) * b == q * b - v * b;
      Between(q - v, b, q * b - v * b);
    }
  }

  lemma QuotientIs(a: Int32, b: Int32, v: Int32)
    ensures IsQuotient(v, a, b) <==> b != 0 && v == FloorDivide(a, b)
  {
    if b != 0 {
      QuotientFits(a, b);
      if b > 0 {
        QuotientAbove(a, b, v);
      } else {
        var n: int, d: int := -(a as int), -(b as int);
        QuotientAbove(n, d, v);
        assert v * d == -(v * b);
      }
    }
  }

  /** Two remainders of one sign differ by less than the divisor. */
  lemma RemaindersAgree(a: int, b: int, v: int, w: int)
    requires IsRemainder(v, a, b) && IsRemainder(w, a, b)
    ensures v == w
  {
    var k, l, d := (a - v) / b, (a - w) / b, Magnitude(b);
    assert a - v == k * b && a - w == l * b;
    assert (k - l) * b == w - v;
    if b > 0 { Between(k - l, d, w - v); } else { assert (l - k) * d == w - v; Between(l - k, d, w - v); }
  }

  lemma NegatedDivides(x: int, b: int)
    requires b != 0 && x % b == 0
    ensures (-x) % b == 0 && x % (-b) == 0
  {
    var k := x / b;
    assert x == k * b && -x == -k * b && x == -k * -b;
    MultipleOf(-k, b);
    MultipleOf(-k, -b);
  }

  lemma MultipleOf(k: int, b: int)
    requires b != 0
    ensures k * b % b == 0
  {
    var x := k * b;
    assert x == x / b * b + x % b;
    assert (k - x / b) * b == x % b;
    if b > 0 { Between(k - x / b, b, x % b); } else { assert (x / b - k) * -b == x % b; Between(x / b - k, -b, x % b); }
  }

  /** Taking the remainder of a number that is not negative, with either sign. */
  lemma RemainderOf(n: int, d: int)
    requires n >= 0 && d > 0
    ensures IsRemainder(n % d, n, d) && IsRemainder(-(n % d), -n, d)
  {
    assert n - n % d == n / d * d;
    MultipleOf(n / d, d);
    NegatedDivides(n - n % d, d);
    assert -n - -(n % d) == -(n - n % d);
  }

  lemma RemainderTurned(v: int, a: int, d: int)
    requires d > 0 && IsRemainder(v, a, d)
    ensures IsRemainder(v, a, -d)
  {
    NegatedDivides(a - v, d);
  }

  lemma RemainderIsOne(a: Int32, b: Int32)
    requires b != 0
    ensures IsRemainder(Remainder(a, b), a, b)
  {
    hide IsRemainder;
    var n: int, d: int := a, if b > 0 then b as int else 0 - b;
    RemainderOf(if n >= 0 then n else -n, d);
    if b < 0 { RemainderTurned(Remainder(a, b), a, d); }
  }

  lemma RemainderIs(a: Int32, b: Int32, v: Int32)
    ensures IsRemainder(v, a, b) <==> b != 0 && v == Remainder(a, b)
  {
    hide Remainder, IsRemainder;
    if b != 0 {
      RemainderIsOne(a, b);
      if IsRemainder(v, a, b) { RemaindersAgree(a, b, v, Remainder(a, b)); }
    } else {
      NoRemainder(v, a);
    }
  }

  lemma NoRemainder(v: int, a: int)
    ensures !IsRemainder(v, a, 0)
  {
  }

  /** An operation of which the operands denote one number each. */
  ghost predicate Operands(e: Expr, c: Chain, a: Int32, b: Int32) {
    && !e.Constant? && !e.GetVariable?
    && (forall x: Int32 :: Denotes(e.left, c, x) <==> x == a) && (forall x: Int32 :: Denotes(e.right, c, x) <==> x == b)
    && Evaluate(e.left, EnvChain(c)) == Some(a) && Evaluate(e.right, EnvChain(c)) == Some(b)
  }

  lemma AddMeans(e: Expr, c: Chain, v: Int32, a: Int32, b: Int32)
    requires e.Add? && Operands(e, c, a, b)
    ensures Denotes(e, c, v) <==> Evaluate(e, EnvChain(c)) == Some(v)
  {
    hide EnvChain, Congruent, IsQuotient, IsRemainder, Wrap, FloorDivide, Remainder, Nearest;
    assert Denotes(e.left, c, a) && Denotes(e.right, c, b);
    WrapIs(a as int + b as int, v);
  }

  lemma SubtractMeans(e: Expr, c: Chain, v: Int32, a: Int32, b: Int32)
    requires e.Subtract? && Operands(e, c, a, b)
    ensures Denotes(e, c, v) <==> Evaluate(e, EnvChain(c)) == Some(v)
  {
    hide EnvChain, Congruent, IsQuotient, IsRemainder, Wrap, FloorDivide, Remainder, Nearest;
    assert Denotes(e.left, c, a) && Denotes(e.right, c, b);
    WrapIs(a as int - b as int, v);
  }

  lemma MultiplyMeans(e: Expr, c: Chain, v: Int32, a: Int32, b: Int32)
    requires e.Multiply? && Operands(e, c, a, b)
    ensures Denotes(e, c, v) <==> Evaluate(e, EnvChain(c)) == Some(v)
  {
    hide EnvChain, Congruent, IsQuotient, IsRemainder, Wrap, FloorDivide, Remainder, Nearest;
    assert Denotes(e.left, c, a) && Denotes(e.right, c, b);
    WrapIs(a as int * b as int, v);
  }

  lemma DivideMeans(e: Expr, c: Chain, v: Int32, a: Int32, b: Int32)
    requires e.Divide? && Operands(e, c, a, b)
    ensures Denotes(e, c, v) <==> Evaluate(e, EnvChain(c)) == Some(v)
  {
    hide EnvChain, Congruent, IsQuotient, IsRemainder, Wrap, FloorDivide, Remainder, Nearest;
    assert Denotes(e.left, c, a) && Denotes(e.right, c, b);
    QuotientIs(a, b, v);
  }

  lemma ModuloMeans(e: Expr, c: Chain, v: Int32, a: Int32, b: Int32)
    requires e.Modulo? && Operands(e, c, a, b)
    ensures Denotes(e, c, v) <==> Evaluate(e, EnvChain(c)) == Some(v)
  {
    hide EnvChain, Congruent, IsQuotient, IsRemainder, Wrap, FloorDivide, Remainder, Nearest;
    assert Denotes(e.left, c, a) && Denotes(e.right, c, b);
    RemainderIs(a, b, v);
  }

  lemma OperationMeans(e: Expr, c: Chain, v: Int32, a: Int32, b: Int32)
    requires Operands(e, c, a, b)
    ensures Denotes(e, c, v) <==> Evaluate(e, EnvChain(c)) == Some(v)
  {
    assert !e.Constant? && !e.GetVariable?;
    hide *;
    match e
    case Add(_, _) => AddMeans(e, c, v, a, b);
    case Subtract(_, _) => SubtractMeans(e, c, v, a, b);
    case Multiply(_, _) => MultiplyMeans(e, c, v, a, b);
    case Divide(_, _) => DivideMeans(e, c, v, a, b);
    case Modulo(_, _) => ModuloMeans(e, c, v, a, b);
  }

  /** The program's evaluation of an expression, over all the variables in sight, finds exactly the
      number that the expression denotes, and fails exactly when it denotes none. */
  lemma {:induction false} EvaluateMeans(e: Expr, c: Chain, v: Int32)
    ensures Denotes(e, c, v) <==> Evaluate(e, EnvChain(c)) == Some(v)
  {
    hide EnvChain, Congruent, IsQuotient, IsRemainder, Wrap, FloorDivide, Remainder, Nearest;
    match e
    case Constant(_) =>
    case GetVariable(name) => NearestEnv(c, name);
    case _ =>
      forall x: Int32 ensures Denotes(e.left, c, x) <==> Evaluate(e.left, EnvChain(c)) == Some(x) {
        EvaluateMeans(e.left, c, x);
      }
      forall x: Int32 ensures Denotes(e.right, c, x) <==> Evaluate(e.right, EnvChain(c)) == Some(x) {
        EvaluateMeans(e.right, c, x);
      }
      var l, r := Evaluate(e.left, EnvChain(c)), Evaluate(e.right, EnvChain(c));
      if l.Some? && r.Some? { OperationMeans(e, c, v, l.value, r.value); }
  }

  lemma ValueIs(e: Expr, c: Chain)
    ensures ValueOf(e, c) == Evaluate(e, EnvChain(c))
  {
    hide Denotes, Evaluate, EnvChain;
    forall v: Int32 ensures Denotes(e, c, v) <==> Evaluate(e, EnvChain(c)) == Some(v) { EvaluateMeans(e, c, v); }
    if Evaluate(e, EnvChain(c)).Some? { assert Denotes(e, c, Evaluate(e, EnvChain(c)).value); }
  }

  lemma ComparesIs(a: Int32, condition: Condition, b: Int32)
    ensures Compares(a, condition, b) <==> Holds(condition, a, b)
  {
  }
}
