/** The printer of combinator expressions: application is written with one space, and an
    argument that is itself an application is written in parentheses. */
module CombinatorPrinting {
  import opened Combinators
  import opened Prelude

  const DIGITS: string := "0123456789"

  lemma DigitIs(n: nat)
    requires n < 10
    ensures DIGITS[n] as int == '0' as int + n
  {
  }

  function ShowNat(n: nat): (s: string)
    ensures |s| > 0 && forall c :: c in s ==> '0' <= c <= '9'
  {
    DigitIs(n % 10);
    if n < 10 then [DIGITS[n]] else ShowNat(n / 10) + [DIGITS[n % 10]]
  }

  function Show(n: int): string {
    if n < 0 then "-" + ShowNat(-n) else ShowNat(n)
  }

  function PrettyExpr(e: Expr): string
    decreases e, 0
  {
    match e
    case S => "S"
    case K => "K"
    case I => "I"
    case B => "B"
    case X => "x"
    case Z => "z"
    case V(n) => "v" + Show(n)
    case App(e1, e2) => PrettyExpr(e1) + " " + PrettyArg(e2)
  }

  function PrettyArg(e: Expr): string
    decreases e, 1
  {
    if e.App? then InParentheses(PrettyExpr(e)) else PrettyExpr(e)
  }

  // ----- parenthesis balance, counted from the right

  function Balance(s: string): int {
    if s == "" then 0
    else Balance(s[1..]) + (if s[0] == ')' then 1 else if s[0] == '(' then -1 else 0)
  }

  lemma {:induction false} BalanceConcat(s: string, t: string)
    ensures Balance(s + t) == Balance(s) + Balance(t)
  {
    if s == "" {
      assert s + t == t;
    } else {
      assert (s + t)[1..] == s[1..] + t;
      BalanceConcat(s[1..], t);
    }
  }

  /** No suffix has more opening than closing parentheses, and the whole is balanced. */
  ghost predicate Closed(s: string) {
    Balance(s) == 0 && forall i :: 0 <= i <= |s| ==> Balance(s[i..]) >= 0
  }

  /** Every space is inside parentheses. */
  ghost predicate Guarded(s: string) {
    forall i :: 0 <= i < |s| && s[i] == ' ' ==> Balance(s[i + 1..]) > 0
  }

  predicate Plain(s: string) {
    ' ' !in s && '(' !in s && ')' !in s
  }

  lemma {:induction false} PlainBalance(s: string)
    requires Plain(s)
    ensures Balance(s) == 0 && Closed(s) && Guarded(s)
    decreases |s|
  {
    if s != "" {
      PlainBalance(s[1..]);
      forall i | 0 <= i <= |s| ensures Balance(s[i..]) >= 0 {
        if i > 0 { assert s[i..] == s[1..][i - 1..]; }
      }
    }
  }

  lemma SuffixConcat(s: string, t: string, i: nat)
    requires i <= |s + t|
    ensures i <= |s| ==> (s + t)[i..] == s[i..] + t
    ensures i >= |s| ==> (s + t)[i..] == t[i - |s|..]
  {
  }

  lemma ClosedConcat(s: string, t: string)
    requires Closed(s) && Closed(t)
    ensures Closed(s + t)
  {
    BalanceConcat(s, t);
    forall i | 0 <= i <= |s + t| ensures Balance((s + t)[i..]) >= 0 {
      SuffixConcat(s, t, i);
      if i <= |s| { BalanceConcat(s[i..], t); }
    }
  }

  function InParentheses(s: string): string { "(" + s + ")" }

  lemma BalanceInside(s: string, i: nat)
    requires 1 <= i <= |s| + 1
    ensures Balance(InParentheses(s)[i..]) == Balance(s[i - 1..]) + 1
  {
    assert InParentheses(s)[i..] == s[i - 1..] + ")";
    BalanceConcat(s[i - 1..], ")");
    assert Balance(")") == Balance("") + 1;
  }

  lemma ParenthesesGuard(s: string)
    requires Closed(s)
    ensures Closed(InParentheses(s)) && Guarded(InParentheses(s))
  {
    var p := InParentheses(s);
    BalanceInside(s, 1);
    assert s[0..] == s && p[0..] == p;
    assert Balance(p) == Balance(p[1..]) - 1;
    forall i | 1 <= i <= |s| + 1
      ensures Balance(p[i..]) > 0
    {
      BalanceInside(s, i);
    }
  }

  lemma ShowPlain(n: int)
    ensures Plain("v" + Show(n)) && Show(n) != ""
  {
    hide DIGITS, ShowNat;
  }

  lemma {:induction false} PrettyClosed(e: Expr)
    ensures Closed(PrettyExpr(e)) && PrettyExpr(e) != ""
    ensures !e.App? ==> Plain(PrettyExpr(e))
    decreases e, 0
  {
    if e.App? {
      PrettyClosed(e.fn);
      ArgGuarded(e.arg);
      PlainSpace();
      ClosedConcat(PrettyExpr(e.fn), " ");
      ClosedConcat(PrettyExpr(e.fn) + " ", PrettyArg(e.arg));
    } else {
      if e.V? { ShowPlain(e.n); }
      PlainBalance(PrettyExpr(e));
    }
  }

  lemma PlainSpace()
    ensures Closed(" ")
  {
    assert Balance("") == 0;
    assert Balance(" ") == Balance("");
    forall i | 0 <= i <= 1 ensures Balance(" "[i..]) >= 0 {
      assert " "[i..] == if i == 0 then " " else "";
    }
  }

  lemma {:induction false} ArgGuarded(e: Expr)
    ensures Closed(PrettyArg(e)) && Guarded(PrettyArg(e))
    decreases e, 1
  {
    PrettyClosed(e);
    if e.App? { ParenthesesGuard(PrettyExpr(e)); } else { PlainBalance(PrettyExpr(e)); }
  }

  // ----- a reader of the printed form

  /** The last space outside parentheses, or -1. */
  function LastSpace(s: string): (i: int)
    ensures -1 <= i < |s|
  {
    if s == "" then -1
    else
      var j := LastSpace(s[1..]);
      if j >= 0 then j + 1 else if s[0] == ' ' && Balance(s[1..]) == 0 then 0 else -1
  }

  function ReadNat(s: string): Option<nat> {
    if s == "" || !('0' <= s[|s| - 1] <= '9') then None
    else
      var digit := s[|s| - 1] as int - '0' as int;
      if |s| == 1 then Some(digit)
      else match ReadNat(s[..|s| - 1])
        case None => None
        case Some(n) => Some(10 * n + digit)
  }

  function ReadInt(s: string): Option<int> {
    var negative := s != "" && s[0] == '-';
    match ReadNat(if negative then s[1..] else s)
    case None => None
    case Some(n) => Some(if negative then 0 - n as int else n)
  }

  function ReadAtom(s: string): Option<Expr> {
    if s == "" then None
    else if |s| == 1 then
      match s[0]
      case 'S' => Some(S)
      case 'K' => Some(K)
      case 'I' => Some(I)
      case 'B' => Some(B)
      case 'x' => Some(X)
      case 'z' => Some(Z)
      case _ => None
    else if s[0] == 'v' then (match ReadInt(s[1..]) case None => None case Some(n) => Some(V(n)))
    else None
  }

  /** What is before the last space outside parentheses is applied to what is after it. */
  function Read(s: string): Option<Expr>
    decreases |s|
  {
    var i := LastSpace(s);
    if i < 0 then ReadAtom(s)
    else
      var t := s[i + 1..];
      var inner := if |t| >= 2 && t[0] == '(' && t[|t| - 1] == ')' then t[1..|t| - 1] else t;
      match (Read(s[..i]), Read(inner))
      case (Some(f), Some(a)) => Some(App(f, a))
      case _ => None
  }

  lemma {:induction false} NoSpace(t: string)
    requires forall i :: 0 <= i < |t| && t[i] == ' ' ==> Balance(t[i + 1..]) != 0
    ensures LastSpace(t) == -1
  {
    if t != "" {
      assert forall i :: 0 <= i < |t[1..]| ==> t[1..][i] == t[i + 1] && t[1..][i + 1..] == t[i + 2..];
      NoSpace(t[1..]);
    }
  }

  lemma {:induction false} SpaceBefore(s: string, t: string)
    requires Closed(t) && Guarded(t)
    ensures LastSpace(s + " " + t) == |s|
  {
    var w := s + " " + t;
    if s == "" {
      NoSpace(t);
      assert w[1..] == t && w[0] == ' ';
    } else {
      assert w[1..] == s[1..] + " " + t;
      SpaceBefore(s[1..], t);
    }
  }

  lemma {:induction false} ReadNatShown(n: nat)
    ensures ReadNat(ShowNat(n)) == Some(n)
  {
    var s := ShowNat(n);
    DigitIs(n % 10);
    assert s[|s| - 1] == DIGITS[n % 10];
    if n >= 10 {
      assert s[..|s| - 1] == ShowNat(n / 10);
      ReadNatShown(n / 10);
    }
  }

  lemma ReadIntShown(n: int)
    ensures ReadInt(Show(n)) == Some(n)
  {
    hide DIGITS, ReadNat, ShowNat;
    ReadNatShown(if n < 0 then -n else n);
    if n < 0 {
      assert Show(n)[1..] == ShowNat(-n);
    } else {
      assert ShowNat(n)[0] in ShowNat(n);
    }
  }

  lemma ReadAtomShown(e: Expr)
    requires !e.App?
    ensures ReadAtom(PrettyExpr(e)) == Some(e)
  {
    if e.V? {
      ReadIntShown(e.n);
      ShowPlain(e.n);
      assert PrettyExpr(e)[1..] == Show(e.n);
    }
  }

  /** What is printed for an expression is read as that expression. */
  lemma {:induction false} ReadPretty(e: Expr)
    ensures Read(PrettyExpr(e)) == Some(e)
  {
    var s := PrettyExpr(e);
    PrettyClosed(e);
    if e.App? {
      var f, t := PrettyExpr(e.fn), PrettyArg(e.arg);
      ArgGuarded(e.arg);
      SpaceBefore(f, t);
      assert s == f + " " + t && s[..|f|] == f && s[|f| + 1..] == t;
      PrettyClosed(e.arg);
      ReadPretty(e.fn);
      ReadPretty(e.arg);
      if e.arg.App? {
        assert t[1..|t| - 1] == PrettyExpr(e.arg);
      } else {
        assert t[0] != '(';
      }
    } else {
      NoSpace(s);
      ReadAtomShown(e);
    }
  }

  /** So the printed form determines the expression. */
  lemma PrettyInjective(d: Expr, e: Expr)
    requires PrettyExpr(d) == PrettyExpr(e)
    ensures d == e
  {
    ReadPretty(d);
    ReadPretty(e);
  }
}
