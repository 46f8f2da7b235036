/** The combinator reducer: expressions over S, K, I, B and variables, a leftmost
    one-step reducer, a second strategy that first contracts the redexes that
    shorten the expression, and the two reduction paths. */
module Combinators {

  datatype Expr = S | K | I | B | App(fn: Expr, arg: Expr) | X | Z | V(n: int)

  function Size(e: Expr): nat {
    if e.App? then Size(e.fn) + Size(e.arg) + 1 else 1
  }

  // ----- the program's functions

  /** One leftmost step; an expression with no redex is returned as it is. */
  function RStep(e: Expr): Expr {
    match e
    case App(App(App(S, x), y), z) => App(App(x, z), App(y, z))
    case App(App(K, x), y) => x
    case App(I, x) => x
    case App(App(App(B, x), y), z) => App(x, App(y, z))
    case App(e1, e2) =>
      var e1' := RStep(e1);
      if e1' == e1 then App(e1, RStep(e2)) else App(e1', e2)
    case _ => e
  }

  lemma ComposedSize(e: Expr)
    requires e.App? && e.fn.App? && e.fn.fn.App?
    ensures Size(App(e.fn.fn.arg, App(e.fn.arg, e.arg))) < Size(e)
  {
    assert Size(e.fn) == Size(e.fn.fn) + Size(e.fn.arg) + 1;
    assert Size(e.fn.fn) >= Size(e.fn.fn.arg) + 2;
  }

  /** Contracts I, K and B redexes below the root until none is left or one has appeared at the
      root, which is then contracted. */
  function ReduceShortening(e: Expr): (r: Expr)
    ensures r == e || Size(r) < Size(e)
    decreases Size(e)
  {
    if !e.App? then e
    else if e.fn == I then e.arg
    else if e.fn.App? && e.fn.fn == K then e.fn.arg
    else if e.fn.App? && e.fn.fn.App? && e.fn.fn.fn == B then
      ComposedSize(e);
      App(e.fn.fn.arg, App(e.fn.arg, e.arg))
    else
      var e1' := ReduceShortening(e.fn);
      var e2' := ReduceShortening(e.arg);
      if e1' == e.fn && e2' == e.arg then e else ReduceShortening(App(e1', e2'))
  }

  /** The second strategy: shorten when possible, else one leftmost step. */
  function RStepShort(e: Expr): Expr {
    var e' := ReduceShortening(e);
    if e' == e then RStep(e) else e'
  }

  /** At most `limit` elements of e, f(e), f(f(e)), ..., ending at a fixpoint of f. */
  function Iterate(e: Expr, f: Expr -> Expr, limit: nat): seq<Expr>
    decreases limit
  {
    if limit == 0 then [] else [e] + (if e == f(e) then [] else Iterate(f(e), f, limit - 1))
  }

  const PATH_LIMIT: nat := 30

  function RPath(e: Expr): seq<Expr> { Iterate(e, RStep, PATH_LIMIT) }

  function RPathShort(e: Expr): seq<Expr> { Iterate(e, RStepShort, PATH_LIMIT) }

  // ----- what a reduction is, independently of any strategy

  /** The contraction of a redex at the root, when there is one. */
  predicate ShorteningRedex(e: Expr) {
    || (e.App? && e.fn == I)
    || (e.App? && e.fn.App? && e.fn.fn == K)
    || (e.App? && e.fn.App? && e.fn.fn.App? && e.fn.fn.fn == B)
  }

  predicate SRedex(e: Expr) {
    e.App? && e.fn.App? && e.fn.fn.App? && e.fn.fn.fn == S
  }

  predicate Redex(e: Expr) { SRedex(e) || ShorteningRedex(e) }

  function Contract(e: Expr): Expr
    requires Redex(e)
  {
    if e.fn == I then e.arg
    else if e.fn.fn == K then e.fn.arg
    else if e.fn.fn.fn == B then App(e.fn.fn.arg, App(e.fn.arg, e.arg))
    else App(App(e.fn.fn.arg, e.arg), App(e.fn.arg, e.arg))
  }

  /** f is e with exactly one redex, anywhere, contracted. */
  predicate Contracts(e: Expr, f: Expr) {
    || (Redex(e) && f == Contract(e))
    || (e.App? && f.App? && Contracts(e.fn, f.fn) && e.arg == f.arg)
    || (e.App? && f.App? && e.fn == f.fn && Contracts(e.arg, f.arg))
  }

  predicate HasRedex(e: Expr) {
    Redex(e) || (e.App? && (HasRedex(e.fn) || HasRedex(e.arg)))
  }

  predicate HasShorteningRedex(e: Expr) {
    ShorteningRedex(e) || (e.App? && (HasShorteningRedex(e.fn) || HasShorteningRedex(e.arg)))
  }

  /** A chain of single contractions. */
  ghost predicate Chain(p: seq<Expr>) {
    && |p| > 0
    && forall i {:trigger p[i]} :: 0 <= i < |p| - 1 ==> Contracts(p[i], p[i + 1])
  }

  ghost predicate ChainFrom(p: seq<Expr>, e: Expr, f: Expr) {
    Chain(p) && p[0] == e && p[|p| - 1] == f
  }

  ghost predicate Reduces(e: Expr, f: Expr) {
    exists p :: ChainFrom(p, e, f)
  }

  lemma ReducesRefl(e: Expr)
    ensures Reduces(e, e)
  {
    assert ChainFrom([e], e, e);
  }

  lemma ReducesStep(e: Expr, f: Expr)
    requires Contracts(e, f)
    ensures Reduces(e, f)
  {
    assert ChainFrom([e, f], e, f);
  }

  lemma ReducesTrans(e: Expr, f: Expr, g: Expr)
    requires Reduces(e, f) && Reduces(f, g)
    ensures Reduces(e, g)
  {
    var p :| ChainFrom(p, e, f);
    var q :| ChainFrom(q, f, g);
    var r := p + q[1..];
    forall i | 0 <= i < |r| - 1
      ensures Contracts(r[i], r[i + 1])
    {
      if i >= |p| - 1 {
        assert r[i] == q[i - (|p| - 1)];
        assert r[i + 1] == q[i + 1 - (|p| - 1)];
      }
    }
    assert ChainFrom(r, e, g);
  }

  /** Reduction is closed under application. */
  lemma ReducesApp(e: Expr, e': Expr, f: Expr, f': Expr)
    requires Reduces(e, e') && Reduces(f, f')
    ensures Reduces(App(e, f), App(e', f'))
  {
    var p :| ChainFrom(p, e, e');
    var q :| ChainFrom(q, f, f');
    var p' := seq(|p|, i requires 0 <= i < |p| => App(p[i], f));
    var q' := seq(|q|, i requires 0 <= i < |q| => App(e', q[i]));
    assert ChainFrom(p', App(e, f), App(e', f));
    assert ChainFrom(q', App(e', f), App(e', f'));
    ReducesTrans(App(e, f), App(e', f), App(e', f'));
  }

  // ----- the two strategies only reduce

  /** A leftmost step is one contraction, and does nothing exactly on a normal form. */
  lemma {:induction false} RStepContracts(e: Expr)
    ensures RStep(e) == e <==> !HasRedex(e)
    ensures HasRedex(e) ==> Contracts(e, RStep(e))
  {
    if Redex(e) {
      assert RStep(e) == Contract(e);
      ContractChanges(e);
    } else if e.App? {
      RStepContracts(e.fn);
      RStepContracts(e.arg);
      assert RStep(e) == if RStep(e.fn) == e.fn then App(e.fn, RStep(e.arg)) else App(RStep(e.fn), e.arg);
    }
  }

  lemma ContractChanges(e: Expr)
    requires Redex(e)
    ensures Contract(e) != e
    ensures ShorteningRedex(e) ==> Size(Contract(e)) < Size(e)
  {
    assert Size(e) > Size(e.arg);
    if SRedex(e) {
      assert Size(App(e.fn.arg, e.arg)) > Size(e.arg);
    } else if e.fn != I && e.fn.fn != K {
      var x, y, z := e.fn.fn.arg, e.fn.arg, e.arg;
      assert Size(App(App(B, x), y)) == Size(x) + Size(y) + 3 by { assert Size(App(B, x)) == Size(x) + 2; }
      assert Size(App(y, z)) == Size(y) + Size(z) + 1;
    } else if e.fn != I {
      assert Size(e) > Size(e.fn) > Size(e.fn.arg);
    }
  }

  lemma {:induction false} ShorteningReduces(e: Expr)
    ensures Reduces(e, ReduceShortening(e))
    ensures ReduceShortening(e) == e <==> !HasShorteningRedex(e)
    decreases Size(e)
  {
    if ShorteningRedex(e) {
      ContractChanges(e);
      assert ReduceShortening(e) == Contract(e);
      ReducesStep(e, Contract(e));
    } else if e.App? {
      var e1', e2' := ReduceShortening(e.fn), ReduceShortening(e.arg);
      ShorteningReduces(e.fn);
      ShorteningReduces(e.arg);
      ReducesApp(e.fn, e1', e.arg, e2');
      if e1' != e.fn || e2' != e.arg {
        ShorteningReduces(App(e1', e2'));
        ReducesTrans(e, App(e1', e2'), ReduceShortening(e));
      }
    } else {
      ReducesRefl(e);
    }
  }

  /** The second strategy reduces, and stops exactly on the normal forms too. */
  lemma RStepShortReduces(e: Expr)
    ensures Reduces(e, RStepShort(e))
    ensures RStepShort(e) == e <==> !HasRedex(e)
  {
    ShorteningReduces(e);
    RStepContracts(e);
    NoRedexNoShortening(e);
    if HasRedex(e) { ReducesStep(e, RStep(e)); } else { ReducesRefl(e); }
  }

  lemma NoRedexNoShortening(e: Expr)
    ensures HasShorteningRedex(e) ==> HasRedex(e)
  {
  }

  lemma RStepReduces(e: Expr)
    ensures Reduces(e, RStep(e))
  {
    RStepContracts(e);
    if HasRedex(e) { ReducesStep(e, RStep(e)); } else { ReducesRefl(e); }
  }

  // ----- confluence, by parallel reduction and complete developments

  /** f is e with any set of disjoint or nested redexes of e contracted at once. */
  predicate Par(e: Expr, f: Expr) {
    || e == f
    || (e.App? && f.App? && Par(e.fn, f.fn) && Par(e.arg, f.arg))
    || (e.App? && e.fn == I && Par(e.arg, f))
    || (e.App? && e.fn.App? && e.fn.fn == K && Par(e.fn.arg, f))
    || (e.App? && e.fn.App? && e.fn.fn.App? && e.fn.fn.fn == B && f.App? && f.arg.App?
        && Par(e.fn.fn.arg, f.fn) && Par(e.fn.arg, f.arg.fn) && Par(e.arg, f.arg.arg))
    || (e.App? && e.fn.App? && e.fn.fn.App? && e.fn.fn.fn == S
        && f.App? && f.fn.App? && f.arg.App? && f.fn.arg == f.arg.arg
        && Par(e.fn.fn.arg, f.fn.fn) && Par(e.fn.arg, f.arg.fn) && Par(e.arg, f.arg.arg))
  }

  /** The complete development: every redex of e contracted at once. */
  function Dev(e: Expr): Expr {
    if !e.App? then e
    else if e.fn == I then Dev(e.arg)
    else if e.fn.App? && e.fn.fn == K then Dev(e.fn.arg)
    else if e.fn.App? && e.fn.fn.App? && e.fn.fn.fn == B then
      App(Dev(e.fn.fn.arg), App(Dev(e.fn.arg), Dev(e.arg)))
    else if e.fn.App? && e.fn.fn.App? && e.fn.fn.fn == S then
      App(App(Dev(e.fn.fn.arg), Dev(e.arg)), App(Dev(e.fn.arg), Dev(e.arg)))
    else App(Dev(e.fn), Dev(e.arg))
  }

  lemma {:induction false} ParDev(e: Expr)
    ensures Par(e, Dev(e))
  {
    if e.App? {
      ParDev(e.fn);
      ParDev(e.arg);
      if e.fn.App? {
        ParDev(e.fn.arg);
        if e.fn.fn.App? { ParDev(e.fn.fn.arg); }
      }
    }
  }

  // A partial application of a combinator is no redex, so its parallel reducts keep its shape.

  predicate Primitive(c: Expr) { !c.App? }

  lemma ParUnary(c: Expr, x: Expr, g: Expr)
    requires Par(App(c, x), g) && Primitive(c) && c != I
    ensures g.App? && g.fn == c && Par(x, g.arg)
  {
    if g != App(c, x) { assert Par(c, g.fn); }
  }

  lemma ParBinary(c: Expr, x: Expr, y: Expr, g: Expr)
    requires Par(App(App(c, x), y), g) && (c == S || c == B)
    ensures g.App? && g.fn.App? && g.fn.fn == c && Par(x, g.fn.arg) && Par(y, g.arg)
  {
    if g != App(App(c, x), y) { ParUnary(c, x, g.fn); }
  }

  /** Whatever e reduces to in parallel reduces in parallel to e's complete development. */
  lemma {:induction false} Triangle(e: Expr, f: Expr)
    requires Par(e, f)
    ensures Par(f, Dev(e))
    decreases e, 1
  {
    if e == f {
      ParDev(e);
    } else if e.App? && e.fn == I {
      if Par(e.arg, f) { Triangle(e.arg, f); } else { assert Par(I, f.fn); Triangle(e.arg, f.arg); }
    } else if e.App? && e.fn.App? && e.fn.fn == K {
      if Par(e.fn.arg, f) {
        Triangle(e.fn.arg, f);
      } else {
        ParUnary(K, e.fn.arg, f.fn);
        Triangle(e.fn.arg, f.fn.arg);
      }
    } else if e.App? && e.fn.App? && e.fn.fn.App? && (e.fn.fn.fn == B || e.fn.fn.fn == S) {
      TriangleTernary(e, f);
    } else {
      Triangle(e.fn, f.fn);
      Triangle(e.arg, f.arg);
    }
  }

  lemma {:induction false} TriangleTernary(e: Expr, f: Expr)
    requires Par(e, f) && e != f
    requires e.App? && e.fn.App? && e.fn.fn.App? && (e.fn.fn.fn == B || e.fn.fn.fn == S)
    ensures Par(f, Dev(e))
    decreases e, 0
  {
    if f.App? && Par(e.fn, f.fn) && Par(e.arg, f.arg) {
      ParBinary(e.fn.fn.fn, e.fn.fn.arg, e.fn.arg, f.fn);
      Triangle(e.fn.fn.arg, f.fn.fn.arg);
      Triangle(e.fn.arg, f.fn.arg);
      Triangle(e.arg, f.arg);
    } else if e.fn.fn.fn == B {
      Triangle(e.fn.fn.arg, f.fn);
      Triangle(e.fn.arg, f.arg.fn);
      Triangle(e.arg, f.arg.arg);
    } else {
      Triangle(e.fn.fn.arg, f.fn.fn);
      Triangle(e.fn.arg, f.arg.fn);
      Triangle(e.arg, f.arg.arg);
      assert f.fn.arg == f.arg.arg;
      assert Par(f.fn, Dev(e).fn) && Par(f.arg, Dev(e).arg);
    }
  }

  lemma {:induction false} ContractsPar(e: Expr, f: Expr)
    requires Contracts(e, f)
    ensures Par(e, f)
  {
    if Redex(e) && f == Contract(e) {
      if e.fn != I && e.fn.fn != K {
        assert Par(e.arg, e.arg) && Par(e.fn.arg, e.fn.arg) && Par(e.fn.fn.arg, e.fn.fn.arg);
      }
    } else {
      if Contracts(e.fn, f.fn) && e.arg == f.arg { ContractsPar(e.fn, f.fn); } else { ContractsPar(e.arg, f.arg); }
    }
  }

  lemma {:induction false} ParReduces(e: Expr, f: Expr)
    requires Par(e, f)
    ensures Reduces(e, f)
  {
    if e == f {
      ReducesRefl(e);
    } else if f.App? && Par(e.fn, f.fn) && Par(e.arg, f.arg) {
      ParReduces(e.fn, f.fn);
      ParReduces(e.arg, f.arg);
      ReducesApp(e.fn, f.fn, e.arg, f.arg);
    } else {
      ReducesStep(e, Contract(e));
      if e.fn == I {
        ParReduces(e.arg, f);
      } else if e.fn.fn == K {
        ParReduces(e.fn.arg, f);
      } else if e.fn.fn.fn == B {
        ParReduces(e.fn.fn.arg, f.fn);
        ParReduces(e.fn.arg, f.arg.fn);
        ParReduces(e.arg, f.arg.arg);
        ReducesApp(e.fn.arg, f.arg.fn, e.arg, f.arg.arg);
        ReducesApp(e.fn.fn.arg, f.fn, App(e.fn.arg, e.arg), f.arg);
      } else {
        ParReduces(e.fn.fn.arg, f.fn.fn);
        ParReduces(e.fn.arg, f.arg.fn);
        ParReduces(e.arg, f.arg.arg);
        ReducesApp(e.fn.arg, f.arg.fn, e.arg, f.arg.arg);
        ReducesApp(e.fn.fn.arg, f.fn.fn, e.arg, f.arg.arg);
        ReducesApp(App(e.fn.fn.arg, e.arg), f.fn, App(e.fn.arg, e.arg), f.arg);
      }
      ReducesTrans(e, Contract(e), f);
    }
  }

  /** One parallel step against a chain of contractions. */
  lemma {:induction false} Strip(p: seq<Expr>, e: Expr, f: Expr, g: Expr) returns (h: Expr)
    requires ChainFrom(p, e, f) && Par(e, g)
    ensures Par(f, h) && Reduces(g, h)
    decreases |p|
  {
    if |p| == 1 {
      h := g;
      ReducesRefl(g);
    } else {
      ContractsPar(e, p[1]);
      Triangle(e, p[1]);
      Triangle(e, g);
      ParReduces(g, Dev(e));
      assert ChainFrom(p[1..], p[1], f);
      h := Strip(p[1..], p[1], f, Dev(e));
      ReducesTrans(g, Dev(e), h);
    }
  }

  /** The Church-Rosser theorem for S, K, I and B. */
  lemma {:induction false} ChurchRosser(e: Expr, f: Expr, g: Expr)
    requires Reduces(e, f) && Reduces(e, g)
    ensures exists h :: Reduces(f, h) && Reduces(g, h)
  {
    var q :| ChainFrom(q, e, g);
    var h := Close(e, f, q, g);
  }

  lemma {:induction false} Close(e: Expr, f: Expr, q: seq<Expr>, g: Expr) returns (h: Expr)
    requires Reduces(e, f) && ChainFrom(q, e, g)
    ensures Reduces(f, h) && Reduces(g, h)
    decreases |q|
  {
    if |q| == 1 {
      h := f;
      ReducesRefl(f);
    } else {
      var p :| ChainFrom(p, e, f);
      ContractsPar(e, q[1]);
      var f' := Strip(p, e, f, q[1]);
      ParReduces(f, f');
      assert ChainFrom(q[1..], q[1], g);
      h := Close(q[1], f', q[1..], g);
      ReducesTrans(f, f', h);
    }
  }

  lemma NormalFormStuck(e: Expr, f: Expr)
    requires !HasRedex(e) && Reduces(e, f)
    ensures e == f
  {
    var p :| ChainFrom(p, e, f);
    if |p| > 1 { ContractsHasRedex(e, p[1]); }
  }

  lemma ContractsHasRedex(e: Expr, f: Expr)
    requires Contracts(e, f)
    ensures HasRedex(e)
  {
  }

  lemma UniqueNormalForm(e: Expr, f: Expr, g: Expr)
    requires Reduces(e, f) && Reduces(e, g) && !HasRedex(f) && !HasRedex(g)
    ensures f == g
  {
    ChurchRosser(e, f, g);
    var h :| Reduces(f, h) && Reduces(g, h);
    NormalFormStuck(f, h);
    NormalFormStuck(g, h);
  }

  // ----- the reduction paths

  function Last(p: seq<Expr>): Expr
    requires p != []
  {
    p[|p| - 1]
  }

  ghost predicate OnlyReduces(f: Expr -> Expr) {
    forall x :: Reduces(x, f(x))
  }

  lemma AllReduce(e: Expr, f: Expr, path: seq<Expr>)
    requires Reduces(e, f) && forall k :: 0 <= k < |path| ==> Reduces(f, path[k])
    ensures forall k :: 0 <= k < |path| ==> Reduces(e, path[k])
  {
    hide Reduces;
    forall k | 0 <= k < |path| ensures Reduces(e, path[k]) { ReducesTrans(e, f, path[k]); }
  }

  /** Every element of a path of a step that only reduces is a reduct of the first. */
  lemma {:induction false} PathReduces(e: Expr, f: Expr -> Expr, limit: nat)
    requires OnlyReduces(f)
    ensures forall k :: 0 <= k < |Iterate(e, f, limit)| ==> Reduces(e, Iterate(e, f, limit)[k])
    decreases limit
  {
    hide Reduces;
    ReducesRefl(e);
    if limit > 0 && e != f(e) {
      var x := f(e);
      var path, rest := Iterate(e, f, limit), Iterate(x, f, limit - 1);
      PathReduces(x, f, limit - 1);
      assert Reduces(e, x) && path == [e] + rest;
      AllReduce(e, x, rest);
    }
  }

  /** A path is not empty, and one that was not cut ends in a fixpoint. */
  lemma {:induction false} PathEnds(e: Expr, f: Expr -> Expr, limit: nat)
    requires limit > 0
    ensures var path := Iterate(e, f, limit);
      path != [] && |path| <= limit && (|path| < limit ==> f(Last(path)) == Last(path))
    decreases limit
  {
    if e != f(e) && limit > 1 { PathEnds(f(e), f, limit - 1); }
  }

  lemma PlainPathReduces(e: Expr, limit: nat)
    requires limit > 0
    ensures Iterate(e, RStep, limit) != [] && Reduces(e, Last(Iterate(e, RStep, limit)))
  {
    forall x ensures Reduces(x, RStep(x)) { RStepReduces(x); }
    PathEnds(e, RStep, limit);
    PathReduces(e, RStep, limit);
  }

  lemma ShortPathReduces(e: Expr, limit: nat)
    requires limit > 0
    ensures Iterate(e, RStepShort, limit) != [] && Reduces(e, Last(Iterate(e, RStepShort, limit)))
  {
    forall x ensures Reduces(x, RStepShort(x)) { RStepShortReduces(x); }
    PathEnds(e, RStepShort, limit);
    PathReduces(e, RStepShort, limit);
  }

  /** The optimised strategy preserves meaning: whenever the two paths from e, however long
      each is allowed to be, end in a fixpoint of their step, they end in the same one. */
  lemma StrategiesAgree(e: Expr, limit: nat, limit': nat)
    requires limit > 0 && limit' > 0
    ensures
      var p, p' := Iterate(e, RStep, limit), Iterate(e, RStepShort, limit');
      && p != [] && p' != []
      && (RStep(Last(p)) == Last(p) && RStepShort(Last(p')) == Last(p') ==> Last(p) == Last(p'))
  {
    PlainPathReduces(e, limit);
    ShortPathReduces(e, limit');
    SameFixpoint(e, Last(Iterate(e, RStep, limit)), Last(Iterate(e, RStepShort, limit')));
  }

  /** The two printed paths: if both are shorter than the limit, they end in the same expression. */
  lemma PrintedPathsAgree(e: Expr)
    ensures RPath(e) != [] && RPathShort(e) != []
    ensures |RPath(e)| < PATH_LIMIT && |RPathShort(e)| < PATH_LIMIT ==> Last(RPath(e)) == Last(RPathShort(e))
  {
    PathEnds(e, RStep, PATH_LIMIT);
    PathEnds(e, RStepShort, PATH_LIMIT);
    StrategiesAgree(e, PATH_LIMIT, PATH_LIMIT);
  }

  lemma SameFixpoint(e: Expr, u: Expr, u': Expr)
    requires Reduces(e, u) && Reduces(e, u')
    ensures RStep(u) == u && RStepShort(u') == u' ==> u == u'
  {
    RStepContracts(u);
    RStepShortReduces(u');
    if !HasRedex(u) && !HasRedex(u') { UniqueNormalForm(e, u, u'); }
  }
}
