/** How far the shortening step goes: it contracts I, K and B redexes only, and stops either when
    none is left or with the first one it meets at the root. */
module CombinatorShortening {
  import opened Combinators

  /** f is e with exactly one I, K or B redex, anywhere, contracted. */
  predicate ShortContracts(e: Expr, f: Expr) {
    || (ShorteningRedex(e) && f == Contract(e))
    || (e.App? && f.App? && ShortContracts(e.fn, f.fn) && e.arg == f.arg)
    || (e.App? && f.App? && e.fn == f.fn && ShortContracts(e.arg, f.arg))
  }

  ghost predicate ShortChain(p: seq<Expr>, e: Expr, f: Expr) {
    && |p| > 0 && p[0] == e && p[|p| - 1] == f
    && forall i {:trigger p[i]} :: 0 <= i < |p| - 1 ==> ShortContracts(p[i], p[i + 1])
  }

  ghost predicate ShortReduces(e: Expr, f: Expr) {
    exists p :: ShortChain(p, e, f)
  }

  /** The same without ever contracting a redex at the root. */
  ghost predicate ShortReducesInside(e: Expr, f: Expr) {
    e == f || (e.App? && f.App? && ShortReduces(e.fn, f.fn) && ShortReduces(e.arg, f.arg))
  }

  lemma ShortRefl(e: Expr)
    ensures ShortReduces(e, e)
  {
    assert ShortChain([e], e, e);
  }

  lemma ShortStep(e: Expr)
    requires ShorteningRedex(e)
    ensures ShortReduces(e, Contract(e))
  {
    assert ShortChain([e, Contract(e)], e, Contract(e));
  }

  lemma ShortTrans(e: Expr, f: Expr, g: Expr)
    requires ShortReduces(e, f) && ShortReduces(f, g)
    ensures ShortReduces(e, g)
  {
    var p :| ShortChain(p, e, f);
    var q :| ShortChain(q, f, g);
    var r := p + q[1..];
    forall i | 0 <= i < |r| - 1 ensures ShortContracts(r[i], r[i + 1]) {
      if i >= |p| - 1 {
        assert r[i] == q[i - (|p| - 1)];
        assert r[i + 1] == q[i + 1 - (|p| - 1)];
      }
    }
    assert ShortChain(r, e, g);
  }

  lemma ShortApp(e: Expr, e': Expr, f: Expr, f': Expr)
    requires ShortReduces(e, e') && ShortReduces(f, f')
    ensures ShortReduces(App(e, f), App(e', f'))
  {
    var p :| ShortChain(p, e, e');
    var q :| ShortChain(q, f, f');
    var p' := seq(|p|, i requires 0 <= i < |p| => App(p[i], f));
    var q' := seq(|q|, i requires 0 <= i < |q| => App(e', q[i]));
    assert ShortChain(p', App(e, f), App(e', f));
    assert ShortChain(q', App(e', f), App(e', f'));
    ShortTrans(App(e, f), App(e', f), App(e', f'));
  }

  /** Every contraction on the way is one of an I, K or B redex. */
  lemma {:induction false} ShorteningIsShort(e: Expr)
    ensures ShortReduces(e, ReduceShortening(e))
    decreases Size(e)
  {
    hide ShortReduces;
    if ShorteningRedex(e) {
      ContractChanges(e);
      assert ReduceShortening(e) == Contract(e);
      ShortStep(e);
    } else if e.App? {
      var e1', e2' := ReduceShortening(e.fn), ReduceShortening(e.arg);
      ShorteningIsShort(e.fn);
      ShorteningIsShort(e.arg);
      ShortApp(e.fn, e1', e.arg, e2');
      if e1' != e.fn || e2' != e.arg {
        ShorteningIsShort(App(e1', e2'));
        ShortTrans(e, App(e1', e2'), ReduceShortening(e));
      }
    } else {
      ShortRefl(e);
    }
  }

  ghost predicate StopsAt(e: Expr, t: Expr, r: Expr) {
    ShortReducesInside(e, t) && if ShorteningRedex(t) then r == Contract(t) else r == t && !HasShorteningRedex(t)
  }

  /** The shortening step works below the root until either no I, K or B redex is left anywhere,
      or one has appeared at the root; that one it contracts, and stops. */
  lemma {:induction false} ShorteningExtent(e: Expr)
    ensures exists t :: StopsAt(e, t, ReduceShortening(e))
    decreases Size(e)
  {
    hide ShortReduces;
    var r := ReduceShortening(e);
    if ShorteningRedex(e) {
      ContractChanges(e);
      assert StopsAt(e, e, r);
    } else if !e.App? {
      assert StopsAt(e, e, r);
    } else {
      var e1', e2' := ReduceShortening(e.fn), ReduceShortening(e.arg);
      ShorteningIsShort(e.fn);
      ShorteningIsShort(e.arg);
      if e1' == e.fn && e2' == e.arg {
        ShorteningReduces(e);
        assert StopsAt(e, e, r);
      } else {
        ShorteningExtent(App(e1', e2'));
        var t :| StopsAt(App(e1', e2'), t, r);
        InsideTrans(e, App(e1', e2'), t);
        assert StopsAt(e, t, r);
      }
    }
  }

  lemma InsideTrans(e: Expr, f: Expr, g: Expr)
    requires ShortReducesInside(e, f) && ShortReducesInside(f, g)
    ensures ShortReducesInside(e, g)
  {
    hide ShortReduces;
    if e != f && f != g {
      ShortTrans(e.fn, f.fn, g.fn);
      ShortTrans(e.arg, f.arg, g.arg);
    }
  }

  /** So one call need not contract them all: K (I x) z becomes I x. */
  lemma ShorteningMayLeaveOne()
    ensures ReduceShortening(App(App(K, App(I, X)), Z)) == App(I, X)
    ensures HasShorteningRedex(App(I, X))
  {
  }
}
