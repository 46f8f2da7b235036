/** Normalisation for the two strategies of `Combinators`: whenever an expression has a
    normal form at all, each strategy reaches it. */
module CombinatorStrategies {
  import opened Combinators

  function Power(f: Expr -> Expr, k: nat, e: Expr): Expr {
    if k == 0 then e else Power(f, k - 1, f(e))
  }

  /** f is reached from e by some number of leftmost steps. */
  ghost predicate LeftmostTo(e: Expr, f: Expr) {
    exists k: nat :: Power(RStep, k, e) == f
  }

  lemma {:induction false} PowerAdd(f: Expr -> Expr, j: nat, k: nat, e: Expr)
    ensures Power(f, j + k, e) == Power(f, k, Power(f, j, e))
  {
    if j > 0 { PowerAdd(f, j - 1, k, f(e)); }
  }

  lemma LeftmostTrans(e: Expr, f: Expr, g: Expr)
    requires LeftmostTo(e, f) && LeftmostTo(f, g)
    ensures LeftmostTo(e, g)
  {
    var j: nat :| Power(RStep, j, e) == f;
    var k: nat :| Power(RStep, k, f) == g;
    PowerAdd(RStep, j, k, e);
  }

  lemma LeftmostRefl(e: Expr)
    ensures LeftmostTo(e, e)
  {
    assert Power(RStep, 0, e) == e;
  }

  lemma LeftmostOne(e: Expr)
    ensures LeftmostTo(e, RStep(e))
  {
    assert Power(RStep, 1, e) == Power(RStep, 0, RStep(e));
  }

  // ----- standardisation: head steps first, then the two sides

  /** e is a primitive with fewer arguments than it needs: one more argument may make a redex. */
  predicate Partial(e: Expr) {
    e == I || e == K || e == B || e == S
    || (e.App? && (e.fn == K || e.fn == B || e.fn == S))
    || (e.App? && e.fn.App? && (e.fn.fn == B || e.fn.fn == S))
  }

  /** f is e with its head redex contracted. */
  predicate HeadStep(e: Expr, f: Expr) {
    || (Redex(e) && f == Contract(e))
    || (!Redex(e) && e.App? && f.App? && HeadStep(e.fn, f.fn) && e.arg == f.arg)
  }

  lemma {:induction false} HeadStepIsLeftmost(e: Expr, f: Expr)
    requires HeadStep(e, f)
    ensures RStep(e) == f && f != e && !Partial(e)
  {
    if Redex(e) {
      ContractChanges(e);
    } else {
      HeadStepIsLeftmost(e.fn, f.fn);
    }
  }

  lemma RedexNeedsPartial(e: Expr, a: Expr)
    requires Redex(App(e, a))
    ensures Partial(e)
  {
  }

  ghost predicate HeadChain(p: seq<Expr>, e: Expr, f: Expr) {
    && |p| > 0 && p[0] == e && p[|p| - 1] == f
    && forall i {:trigger p[i]} :: 0 <= i < |p| - 1 ==> HeadStep(p[i], p[i + 1])
  }

  ghost predicate HeadTo(e: Expr, f: Expr) {
    exists p :: HeadChain(p, e, f)
  }

  lemma HeadRefl(e: Expr)
    ensures HeadTo(e, e)
  {
    assert HeadChain([e], e, e);
  }

  lemma HeadOne(e: Expr)
    requires Redex(e)
    ensures HeadTo(e, Contract(e))
  {
    assert HeadChain([e, Contract(e)], e, Contract(e));
  }

  lemma HeadTrans(e: Expr, f: Expr, g: Expr)
    requires HeadTo(e, f) && HeadTo(f, g)
    ensures HeadTo(e, g)
  {
    var p :| HeadChain(p, e, f);
    var q :| HeadChain(q, f, g);
    var r := p + q[1..];
    forall i | 0 <= i < |r| - 1
      ensures HeadStep(r[i], r[i + 1])
    {
      if i >= |p| - 1 {
        assert r[i] == q[i - (|p| - 1)];
        assert r[i + 1] == q[i + 1 - (|p| - 1)];
      }
    }
    assert HeadChain(r, e, g);
  }

  lemma HeadApp(e: Expr, f: Expr, a: Expr)
    requires HeadTo(e, f)
    ensures HeadTo(App(e, a), App(f, a))
  {
    var p :| HeadChain(p, e, f);
    var q := seq(|p|, i requires 0 <= i < |p| => App(p[i], a));
    forall i | 0 <= i < |q| - 1
      ensures HeadStep(q[i], q[i + 1])
    {
      assert HeadStep(p[i], p[i + 1]);
      HeadStepIsLeftmost(p[i], p[i + 1]);
      if Redex(App(p[i], a)) { RedexNeedsPartial(p[i], a); }
    }
    assert HeadChain(q, App(e, a), App(f, a));
  }

  lemma {:induction false} HeadToLeftmost(p: seq<Expr>, e: Expr, f: Expr)
    requires HeadChain(p, e, f)
    ensures LeftmostTo(e, f)
    decreases |p|
  {
    LeftmostRefl(e);
    if |p| > 1 {
      assert HeadStep(p[0], p[1]);
      HeadStepIsLeftmost(e, p[1]);
      LeftmostOne(e);
      forall i | 0 <= i < |p[1..]| - 1 ensures HeadStep(p[1..][i], p[1..][i + 1]) {
        assert HeadStep(p[i + 1], p[i + 2]);
      }
      HeadToLeftmost(p[1..], p[1], f);
      LeftmostTrans(e, p[1], f);
    }
  }

  /** e reduces to f by a standard reduction: head steps, then f's two parts separately. */
  ghost predicate Std(e: Expr, f: Expr)
    decreases f
  {
    if f.App? then exists a, b :: HeadTo(e, App(a, b)) && Std(a, f.fn) && Std(b, f.arg)
    else HeadTo(e, f)
  }

  lemma {:induction false} StdRefl(e: Expr)
    ensures Std(e, e)
  {
    HeadRefl(e);
    if e.App? {
      StdRefl(e.fn);
      StdRefl(e.arg);
      assert HeadTo(e, App(e.fn, e.arg));
    }
  }

  lemma StdAfterHead(d: Expr, e: Expr, f: Expr)
    requires HeadTo(d, e) && Std(e, f)
    ensures Std(d, f)
  {
    if f.App? {
      var a, b :| HeadTo(e, App(a, b)) && Std(a, f.fn) && Std(b, f.arg);
      HeadTrans(d, e, App(a, b));
    } else {
      HeadTrans(d, e, f);
    }
  }

  lemma StdApp(a: Expr, f: Expr, b: Expr, g: Expr)
    requires Std(a, f) && Std(b, g)
    ensures Std(App(a, b), App(f, g))
  {
    HeadRefl(App(a, b));
  }

  /** The two parts of a standard reduction to an application. */
  lemma StdSplit(e: Expr, f: Expr) returns (a: Expr, b: Expr)
    requires f.App? && Std(e, f)
    ensures HeadTo(e, App(a, b)) && Std(a, f.fn) && Std(b, f.arg)
  {
    a, b :| HeadTo(e, App(a, b)) && Std(a, f.fn) && Std(b, f.arg);
  }

  lemma StdLeaf(e: Expr, f: Expr)
    requires !f.App? && Std(e, f)
    ensures HeadTo(e, f)
  {
  }

  lemma StdContractI(e: Expr, f: Expr)
    requires Redex(f) && f.fn == I && Std(e, f)
    ensures Std(e, Contract(f))
  {
    var e1, z := StdSplit(e, f);
    HeadApp(e1, I, z);
    HeadTrans(e, App(e1, z), App(I, z));
    HeadOne(App(I, z));
    HeadTrans(e, App(I, z), z);
    StdAfterHead(e, z, f.arg);
  }

  lemma StdContractK(e: Expr, f: Expr)
    requires Redex(f) && f.fn != I && f.fn.fn == K && Std(e, f)
    ensures Std(e, Contract(f))
  {
    hide HeadTo, Std;
    var e1, z := StdSplit(e, f);
    var e2, y := StdSplit(e1, f.fn);
    StdLeaf(e2, K);
    HeadApp(e2, K, y);
    HeadTrans(e1, App(e2, y), App(K, y));
    HeadApp(e1, App(K, y), z);
    HeadTrans(e, App(e1, z), App(App(K, y), z));
    HeadOne(App(App(K, y), z));
    HeadTrans(e, App(App(K, y), z), y);
    StdAfterHead(e, y, f.fn.arg);
  }

  /** The three arguments of a standard reduction to a primitive with three arguments. */
  lemma StdSplitTernary(e: Expr, c: Expr, fx: Expr, fy: Expr, fz: Expr) returns (x: Expr, y: Expr, z: Expr)
    requires !c.App? && Std(e, App(App(App(c, fx), fy), fz))
    ensures HeadTo(e, App(App(App(c, x), y), z)) && Std(x, fx) && Std(y, fy) && Std(z, fz)
  {
    var e1, e2, e3;
    e1, z := StdSplit(e, App(App(App(c, fx), fy), fz));
    e2, y := StdSplit(e1, App(App(c, fx), fy));
    e3, x := StdSplit(e2, App(c, fx));
    StdTernary(e, e1, e2, e3, x, y, z, c);
  }

  lemma StdContractTernary(e: Expr, f: Expr)
    requires Redex(f) && f.fn != I && f.fn.fn != K && Std(e, f)
    ensures Std(e, Contract(f))
  {
    var c := f.fn.fn.fn;
    var x, y, z := StdSplitTernary(e, c, f.fn.fn.arg, f.fn.arg, f.arg);
    var r := App(App(App(c, x), y), z);
    HeadOne(r);
    HeadTrans(e, r, Contract(r));
    StdTernaryContractum(x, y, z, f);
    StdAfterHead(e, Contract(r), Contract(f));
  }

  lemma StdTernaryContractum(x: Expr, y: Expr, z: Expr, f: Expr)
    requires Redex(f) && f.fn != I && f.fn.fn != K
    requires Std(x, f.fn.fn.arg) && Std(y, f.fn.arg) && Std(z, f.arg)
    ensures Std(Contract(App(App(App(f.fn.fn.fn, x), y), z)), Contract(f))
  {
    hide Std, HeadTo;
    StdApp(y, f.fn.arg, z, f.arg);
    if f.fn.fn.fn == B {
      StdApp(x, f.fn.fn.arg, App(y, z), App(f.fn.arg, f.arg));
    } else {
      StdApp(x, f.fn.fn.arg, z, f.arg);
      StdApp(App(x, z), App(f.fn.fn.arg, f.arg), App(y, z), App(f.fn.arg, f.arg));
    }
  }

  /** A standard reduction to a redex can go on with that redex as a head step. */
  lemma StdContract(e: Expr, f: Expr)
    requires Redex(f) && Std(e, f)
    ensures Std(e, Contract(f))
  {
    if f.fn == I { StdContractI(e, f); }
    else if f.fn.fn == K { StdContractK(e, f); }
    else { StdContractTernary(e, f); }
  }

  lemma StdTernary(e: Expr, e1: Expr, e2: Expr, e3: Expr, x: Expr, y: Expr, z: Expr, c: Expr)
    requires HeadTo(e, App(e1, z)) && HeadTo(e1, App(e2, y)) && HeadTo(e2, App(e3, x)) && HeadTo(e3, c)
    ensures HeadTo(e, App(App(App(c, x), y), z))
  {
    HeadApp(e3, c, x);
    HeadTrans(e2, App(e3, x), App(c, x));
    HeadApp(e2, App(c, x), y);
    HeadTrans(e1, App(e2, y), App(App(c, x), y));
    HeadApp(e1, App(App(c, x), y), z);
    HeadTrans(e, App(e1, z), App(App(App(c, x), y), z));
  }

  lemma {:induction false} StdThenContract(e: Expr, f: Expr, g: Expr)
    requires Std(e, f) && Contracts(f, g)
    ensures Std(e, g)
    decreases f
  {
    if Redex(f) && g == Contract(f) {
      StdContract(e, f);
    } else {
      var a, b := StdSplit(e, f);
      if Contracts(f.fn, g.fn) && f.arg == g.arg {
        StdThenContract(a, f.fn, g.fn);
      } else {
        StdThenContract(b, f.arg, g.arg);
      }
    }
  }

  /** Every reduction can be made standard. */
  lemma {:induction false} Standardisation(p: seq<Expr>, e: Expr, f: Expr)
    requires ChainFrom(p, e, f)
    ensures Std(e, f)
    decreases |p|
  {
    if |p| == 1 {
      StdRefl(e);
    } else {
      var q := p[..|p| - 1];
      assert ChainFrom(q, e, p[|p| - 2]);
      Standardisation(q, e, p[|p| - 2]);
      StdThenContract(e, p[|p| - 2], f);
    }
  }

  // ----- leftmost steps inside the two sides of an application

  lemma PartialKept(e: Expr, a: Expr)
    requires Redex(App(e, a))
    ensures Redex(App(RStep(e), a))
  {
    if e.App? && e.fn.App? {
      assert RStep(e.fn) == App(e.fn.fn, RStep(e.fn.arg));
    }
  }

  lemma {:induction false} PartialKeptLong(k: nat, e: Expr, a: Expr)
    requires Redex(App(e, a))
    ensures Redex(App(Power(RStep, k, e), a))
  {
    if k > 0 {
      PartialKept(e, a);
      PartialKeptLong(k - 1, RStep(e), a);
    }
  }

  lemma RedexAnyArgument(e: Expr, a: Expr, b: Expr)
    requires Redex(App(e, a))
    ensures Redex(App(e, b))
  {
  }

  lemma {:induction false} LeftmostInFunction(k: nat, e: Expr, f: Expr, a: Expr, c: Expr)
    requires Power(RStep, k, e) == f && !Redex(App(f, c))
    ensures LeftmostTo(App(e, a), App(f, a))
    decreases k
  {
    LeftmostRefl(App(e, a));
    if k > 0 {
      if Redex(App(e, a)) {
        RedexAnyArgument(e, a, c);
        PartialKeptLong(k, e, c);
        assert false;
      }
      LeftmostOne(App(e, a));
      LeftmostInFunction(k - 1, RStep(e), f, a, c);
      if RStep(e) != e { LeftmostTrans(App(e, a), App(RStep(e), a), App(f, a)); }
    }
  }

  lemma {:induction false} LeftmostInArgument(k: nat, f: Expr, e: Expr, g: Expr)
    requires Power(RStep, k, e) == g && !HasRedex(App(f, g))
    ensures LeftmostTo(App(f, e), App(f, g))
    decreases k
  {
    LeftmostRefl(App(f, e));
    if k > 0 {
      if Redex(App(f, e)) {
        RedexAnyArgument(f, e, g);
        assert false;
      }
      RStepContracts(f);
      LeftmostOne(App(f, e));
      LeftmostInArgument(k - 1, f, RStep(e), g);
      LeftmostTrans(App(f, e), App(f, RStep(e)), App(f, g));
    }
  }

  lemma {:induction false} StdToNormalForm(e: Expr, n: Expr)
    requires Std(e, n) && !HasRedex(n)
    ensures LeftmostTo(e, n)
    decreases n
  {
    if n.App? {
      var a, b := StdSplit(e, n);
      StdToNormalForm(a, n.fn);
      StdToNormalForm(b, n.arg);
      var p :| HeadChain(p, e, App(a, b));
      HeadToLeftmost(p, e, App(a, b));
      var i: nat :| Power(RStep, i, a) == n.fn;
      var j: nat :| Power(RStep, j, b) == n.arg;
      LeftmostInFunction(i, a, n.fn, b, n.arg);
      LeftmostInArgument(j, n.fn, b, n.arg);
      LeftmostTrans(App(a, b), App(n.fn, b), n);
      LeftmostTrans(e, App(a, b), n);
    } else {
      var p :| HeadChain(p, e, n);
      HeadToLeftmost(p, e, n);
    }
  }

  /** The normalisation theorem: if e has a normal form, leftmost steps reach it. */
  lemma LeftmostNormalises(e: Expr, n: Expr)
    requires Reduces(e, n) && !HasRedex(n)
    ensures LeftmostTo(e, n)
  {
    var p :| ChainFrom(p, e, n);
    Standardisation(p, e, n);
    StdToNormalForm(e, n);
  }

  // ----- the shortening strategy also normalises

  lemma ParOfNormal(e: Expr, f: Expr)
    requires Par(e, f) && !HasRedex(e)
    ensures f == e
  {
    ParReduces(e, f);
    NormalFormStuck(e, f);
  }

  /** A parallel step from a root redex either contracts it or keeps it. */
  lemma ParRoot(e: Expr, f: Expr)
    requires Par(e, f) && Redex(e)
    ensures Par(Contract(e), f) || (Redex(f) && Par(Contract(e), Contract(f)))
  {
    if e != f {
      if e.fn == I {
        if f.App? && Par(e.fn, f.fn) && Par(e.arg, f.arg) { assert f.fn == I; }
      } else if e.fn.fn == K {
        if f.App? && Par(e.fn, f.fn) && Par(e.arg, f.arg) { ParUnary(K, e.fn.arg, f.fn); }
      } else {
        ParRootTernary(e, f, e.fn.fn.arg, e.fn.arg, e.arg);
      }
    }
  }

  lemma ParRootTernary(e: Expr, f: Expr, x: Expr, y: Expr, z: Expr)
    requires Par(e, f) && e != f
    requires e == App(App(App(B, x), y), z) || e == App(App(App(S, x), y), z)
    ensures Par(Contract(e), f) || (Redex(f) && Par(Contract(e), Contract(f)))
  {
    if f.App? && Par(e.fn, f.fn) && Par(e.arg, f.arg) {
      ParBinary(e.fn.fn.fn, x, y, f.fn);
      assert Par(App(y, z), App(f.fn.arg, f.arg));
      if SRedex(e) { assert Par(App(x, z), App(f.fn.fn.arg, f.arg)); }
    } else if SRedex(e) {
      assert Par(App(x, z), f.fn) && Par(App(y, z), f.arg);
    } else {
      assert Par(App(y, z), f.arg);
    }
  }

  /** A parallel step that turns e into a partial application contracts e's leftmost redex. */
  lemma {:induction false} ParToPartial(e: Expr, f: Expr)
    requires Par(e, f) && Partial(f) && !Partial(e)
    ensures Par(RStep(e), f)
  {
    if Redex(e) {
      ParRoot(e, f);
    } else {
      assert Par(e.fn, f.fn);
      ParToPartial(e.fn, f.fn);
      if RStep(e.fn) == e.fn {
        RStepContracts(e.fn);
        ParOfNormal(e.fn, f.fn);
      }
    }
  }

  /** Parallel steps and leftmost steps commute: the leftmost step of e is either done by
      the parallel step already or can be done after it. */
  lemma {:induction false} LeftmostCommutes(e: Expr, f: Expr)
    requires Par(e, f)
    ensures Par(RStep(e), f) || Par(RStep(e), RStep(f))
  {
    if e == f {
    } else if Redex(e) {
      ParRoot(e, f);
    } else {
      assert Par(e.fn, f.fn) && Par(e.arg, f.arg);
      RStepContracts(e.fn);
      if RStep(e.fn) == e.fn {
        ParOfNormal(e.fn, f.fn);
        LeftmostCommutes(e.arg, f.arg);
        if Redex(f) { RedexAnyArgument(f.fn, f.arg, e.arg); }
      } else {
        LeftmostCommutes(e.fn, f.fn);
        if Redex(f) { PartialAgree(e, f); }
      }
    }
  }

  lemma PartialAgree(e: Expr, f: Expr)
    requires e.App? && f.App? && !Redex(e) && Redex(f) && Par(e.fn, f.fn)
    ensures Par(RStep(e.fn), f.fn)
  {
    RedexNeedsPartial(f.fn, f.arg);
    if Partial(e.fn) { PartialArity(e.fn, f.fn, e.arg, f.arg); } else { ParToPartial(e.fn, f.fn); }
  }

  /** A parallel step of a partial application adds no argument. */
  lemma PartialArity(e: Expr, f: Expr, a: Expr, b: Expr)
    requires Partial(e) && Par(e, f) && Redex(App(f, b))
    ensures Redex(App(e, a))
  {
    if e.App? && e.fn.App? {
      ParBinary(e.fn.fn, e.fn.arg, e.arg, f);
    } else if e.App? {
      ParUnary(e.fn, e.arg, f);
    }
  }

  /** Reaching the normal form n in at most k leftmost steps. */
  predicate Within(e: Expr, n: Expr, k: nat)
    decreases k
  {
    e == n || (k > 0 && Within(RStep(e), n, k - 1))
  }

  lemma {:induction false} WithinPar(e: Expr, f: Expr, n: Expr, k: nat)
    requires Par(e, f) && Within(e, n, k) && !HasRedex(n)
    ensures Within(f, n, k)
    decreases k
  {
    if e == n {
      ParOfNormal(e, f);
    } else {
      LeftmostCommutes(e, f);
      if Par(RStep(e), f) {
        WithinPar(RStep(e), f, n, k - 1);
        WithinMore(f, n, k - 1);
      } else {
        WithinPar(RStep(e), RStep(f), n, k - 1);
      }
    }
  }

  lemma {:induction false} WithinMore(e: Expr, n: Expr, k: nat)
    requires Within(e, n, k)
    ensures Within(e, n, k + 1)
    decreases k
  {
    if e != n { WithinMore(RStep(e), n, k - 1); }
  }

  lemma {:induction false} WithinReduces(p: seq<Expr>, e: Expr, f: Expr, n: Expr, k: nat)
    requires ChainFrom(p, e, f) && Within(e, n, k) && !HasRedex(n)
    ensures Within(f, n, k)
    decreases |p|
  {
    if |p| > 1 {
      ContractsPar(e, p[1]);
      WithinPar(e, p[1], n, k);
      assert ChainFrom(p[1..], p[1], f);
      WithinReduces(p[1..], p[1], f, n, k);
    }
  }

  lemma {:induction false} PowerWithin(e: Expr, n: Expr, k: nat)
    requires Power(RStep, k, e) == n
    ensures Within(e, n, k)
    decreases k
  {
    if k > 0 { PowerWithin(RStep(e), n, k - 1); }
  }

  /** The shortening strategy terminates where leftmost steps do: each of its steps either
      takes the next leftmost step or shortens the expression without adding one. */
  lemma {:induction false} ShortReaches(e: Expr, n: Expr, k: nat) returns (j: nat)
    requires Within(e, n, k) && !HasRedex(n)
    ensures Power(RStepShort, j, e) == n
    decreases k, Size(e)
  {
    hide RStep, ReduceShortening, Reduces, HasRedex, Size;
    if e == n {
      j := 0;
    } else if ReduceShortening(e) == e {
      j := ShortReaches(RStep(e), n, k - 1);
      PowerStep(RStepShort, j, e);
    } else {
      ShortWithin(e, n, k);
      j := ShortReaches(RStepShort(e), n, k);
      PowerStep(RStepShort, j, e);
    }
    j := if e == n then 0 else j + 1;
  }

  lemma PowerStep(f: Expr -> Expr, k: nat, e: Expr)
    ensures Power(f, k + 1, e) == Power(f, k, f(e))
  {
  }

  lemma ShortWithin(e: Expr, n: Expr, k: nat)
    requires Within(e, n, k) && !HasRedex(n)
    ensures Within(RStepShort(e), n, k)
  {
    hide RStepShort, HasRedex, Within;
    RStepShortReduces(e);
    var p :| ChainFrom(p, e, RStepShort(e));
    WithinReduces(p, e, RStepShort(e), n, k);
  }

  /** Both strategies normalise: if e has a normal form, each of them reaches exactly it. */
  lemma BothNormalise(e: Expr, n: Expr)
    requires Reduces(e, n) && !HasRedex(n)
    ensures exists k: nat :: Power(RStep, k, e) == n
    ensures exists k: nat :: Power(RStepShort, k, e) == n
  {
    LeftmostNormalises(e, n);
    var k: nat :| Power(RStep, k, e) == n;
    PowerWithin(e, n, k);
    var j := ShortReaches(e, n, k);
  }

  // ----- back to the paths the program prints

  lemma IterateStep(f: Expr -> Expr, e: Expr, limit: nat)
    requires limit > 0
    ensures Iterate(e, f, limit) == [e] + (if e == f(e) then [] else Iterate(f(e), f, limit - 1))
  {
  }

  lemma LastAfter(e: Expr, rest: seq<Expr>)
    requires rest != []
    ensures Last([e] + rest) == Last(rest)
  {
  }

  lemma {:induction false} IterateReaches(f: Expr -> Expr, k: nat, e: Expr, n: Expr, limit: nat)
    requires Power(f, k, e) == n && f(n) == n && limit > k
    ensures Iterate(e, f, limit) != [] && Last(Iterate(e, f, limit)) == n
    decreases k
  {
    hide Iterate, Last;
    IterateStep(f, e, limit);
    if e == f(e) {
      PowerFixpoint(f, k, e);
      LastOfOne(e);
    } else {
      assert k > 0;
      IterateReaches(f, k - 1, f(e), n, limit - 1);
      LastAfter(e, Iterate(f(e), f, limit - 1));
    }
  }

  lemma LastOfOne(e: Expr)
    ensures Last([e] + []) == e
  {
  }

  lemma {:induction false} PowerFixpoint(f: Expr -> Expr, k: nat, e: Expr)
    requires f(e) == e
    ensures Power(f, k, e) == e
  {
    if k > 0 { PowerFixpoint(f, k - 1, e); }
  }

  /** The path with at most `limit` elements ends in a fixpoint of its step. */
  predicate Stops(e: Expr, f: Expr -> Expr, limit: nat) {
    limit > 0 && Iterate(e, f, limit) != [] && f(Last(Iterate(e, f, limit))) == Last(Iterate(e, f, limit))
  }

  /** With no bound on the length, one path stops if and only if the other does, and then
      both stop at the same expression. */
  lemma PathsStopTogether(e: Expr)
    ensures (exists limit: nat :: Stops(e, RStep, limit)) <==> (exists limit: nat :: Stops(e, RStepShort, limit))
    ensures forall limit: nat, limit': nat :: Stops(e, RStep, limit) && Stops(e, RStepShort, limit') ==>
              Last(Iterate(e, RStep, limit)) == Last(Iterate(e, RStepShort, limit'))
  {
    if limit: nat :| Stops(e, RStep, limit) {
      var n := Last(Iterate(e, RStep, limit));
      PlainPathReduces(e, limit);
      RStepContracts(n);
      StopsShort(e, n);
    }
    if limit: nat :| Stops(e, RStepShort, limit) {
      var n := Last(Iterate(e, RStepShort, limit));
      ShortPathReduces(e, limit);
      RStepShortReduces(n);
      StopsPlain(e, n);
    }
    forall limit: nat, limit': nat | Stops(e, RStep, limit) && Stops(e, RStepShort, limit')
      ensures Last(Iterate(e, RStep, limit)) == Last(Iterate(e, RStepShort, limit'))
    {
      StrategiesAgree(e, limit, limit');
    }
  }

  lemma StopsShort(e: Expr, n: Expr)
    requires Reduces(e, n) && !HasRedex(n)
    ensures exists limit: nat :: Stops(e, RStepShort, limit)
  {
    BothNormalise(e, n);
    RStepShortReduces(n);
    var k: nat :| Power(RStepShort, k, e) == n;
    IterateReaches(RStepShort, k, e, n, k + 1);
    assert Stops(e, RStepShort, k + 1);
  }

  lemma StopsPlain(e: Expr, n: Expr)
    requires Reduces(e, n) && !HasRedex(n)
    ensures exists limit: nat :: Stops(e, RStep, limit)
  {
    BothNormalise(e, n);
    RStepContracts(n);
    var k: nat :| Power(RStep, k, e) == n;
    IterateReaches(RStep, k, e, n, k + 1);
    assert Stops(e, RStep, k + 1);
  }
}
