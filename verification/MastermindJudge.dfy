/** The judge of Mastermind: positions that match, and colours that are there but elsewhere. */
module MastermindJudge {

  type Code = seq<int>

  predicate CodeOk(k: nat, n: nat, s: Code) {
    |s| == n && forall i :: 0 <= i < n ==> 1 <= s[i] <= k
  }

  function Count(s: Code, c: int): nat {
    if s == [] then 0 else Count(s[..|s| - 1], c) + if s[|s| - 1] == c then 1 else 0
  }

  /** The positions below n where both codes hold colour c. */
  function Common(h: Code, q: Code, n: nat, c: int): (r: nat)
    requires n <= |h| == |q|
    ensures r <= Count(h[..n], c) && r <= Count(q[..n], c)
  {
    if n == 0 then 0
    else
      assert h[..n][..n - 1] == h[..n - 1] && q[..n][..n - 1] == q[..n - 1];
      Common(h, q, n - 1, c) + if h[n - 1] == q[n - 1] == c then 1 else 0
  }

  function Full(h: Code, q: Code, n: nat): nat
    requires n <= |h| == |q|
  {
    if n == 0 then 0 else Full(h, q, n - 1) + if h[n - 1] == q[n - 1] then 1 else 0
  }

  function Min(a: nat, b: nat): nat {
    if a < b then a else b
  }

  /** For every colour up to k, how often both codes have it, added up. */
  function MinSum(h: Code, q: Code, k: nat): nat {
    if k == 0 then 0 else MinSum(h, q, k - 1) + Min(Count(h, k), Count(q, k))
  }

  function CommonSum(h: Code, q: Code, n: nat, k: nat): nat
    requires n <= |h| == |q|
  {
    if k == 0 then 0 else CommonSum(h, q, n, k - 1) + Common(h, q, n, k)
  }

  lemma {:induction false} CommonNext(h: Code, q: Code, n: nat, k: nat)
    requires n < |h| == |q|
    ensures CommonSum(h, q, n + 1, k)
         == CommonSum(h, q, n, k) + if h[n] == q[n] && 1 <= h[n] <= k then 1 else 0
  {
    if k > 0 { CommonNext(h, q, n, k - 1); }
  }

  lemma {:induction false} NothingCommon(h: Code, q: Code, k: nat)
    requires |h| == |q|
    ensures CommonSum(h, q, 0, k) == 0
  {
    if k > 0 { NothingCommon(h, q, k - 1); }
  }

  /** The matching positions, counted colour by colour. */
  lemma {:induction false} FullByColour(h: Code, q: Code, n: nat, k: nat)
    requires n <= |h| == |q| && forall i :: 0 <= i < |h| ==> 1 <= h[i] <= k
    ensures CommonSum(h, q, n, k) == Full(h, q, n)
  {
    if n == 0 {
      NothingCommon(h, q, k);
    } else {
      FullByColour(h, q, n - 1, k);
      CommonNext(h, q, n - 1, k);
    }
  }

  lemma {:induction false} CommonBelowMin(h: Code, q: Code, k: nat)
    requires |h| == |q|
    ensures CommonSum(h, q, |h|, k) <= MinSum(h, q, k)
  {
    if k > 0 {
      CommonBelowMin(h, q, k - 1);
      assert h[..|h|] == h && q[..|q|] == q;
    }
  }

  lemma FullBelowMin(k: nat, h: Code, q: Code)
    requires |h| == |q| && CodeOk(k, |h|, h)
    ensures Full(h, q, |h|) <= MinSum(h, q, k)
  {
    FullByColour(h, q, |h|, k);
    CommonBelowMin(h, q, k);
  }

  /** The judge's answer: matching positions, and the rest of the common colours. */
  function Answer(k: nat, h: Code, q: Code): (nat, nat)
    requires |h| == |q| && CodeOk(k, |h|, h)
  {
    FullBelowMin(k, h, q);
    (Full(h, q, |h|), MinSum(h, q, k) - Full(h, q, |h|))
  }

  // ----- what the answer is

  function Matching(h: Code, q: Code, n: nat): set<nat>
    requires n <= |h| == |q|
  {
    set i: nat | i < n && h[i] == q[i]
  }

  lemma {:induction false} FullMatches(h: Code, q: Code, n: nat)
    requires n <= |h| == |q|
    ensures Full(h, q, n) == |Matching(h, q, n)|
  {
    if n > 0 {
      FullMatches(h, q, n - 1);
      var before := Matching(h, q, n - 1);
      assert Matching(h, q, n) == if h[n - 1] == q[n - 1] then before + {n - 1} else before;
    }
  }

  lemma {:induction false} CountIs(s: Code, c: int)
    ensures Count(s, c) == multiset(s)[c]
    decreases |s|
  {
    if s != [] {
      CountIs(s[..|s| - 1], c);
      assert s == s[..|s| - 1] + [s[|s| - 1]];
    }
  }

  function Multiplicities(m: multiset<int>, k: nat): nat {
    if k == 0 then 0 else Multiplicities(m, k - 1) + m[k]
  }

  lemma {:induction false} SameBelow(m: multiset<int>, m': multiset<int>, k: nat)
    requires forall c :: 1 <= c <= k ==> m[c] == m'[c]
    ensures Multiplicities(m, k) == Multiplicities(m', k)
  {
    if k > 0 { SameBelow(m, m', k - 1); }
  }

  lemma {:induction false} MultiplicitiesAdd(m: multiset<int>, k: nat)
    requires forall c :: c in m ==> 1 <= c <= k
    ensures Multiplicities(m, k) == |m|
  {
    if k == 0 {
      assert m == multiset{};
    } else {
      var rest := m[k := 0];
      MultiplicitiesAdd(rest, k - 1);
      SameBelow(m, rest, k - 1);
    }
  }

  lemma {:induction false} MinSumIs(h: Code, q: Code, k: nat)
    ensures MinSum(h, q, k) == Multiplicities(multiset(h) * multiset(q), k)
  {
    if k > 0 {
      MinSumIs(h, q, k - 1);
      CountIs(h, k);
      CountIs(q, k);
    }
  }

  /** The judge says how many positions hold the same colour, and how many more colours the two
      codes have in common, each as often as both have it. */
  lemma AnswerMeans(k: nat, h: Code, q: Code)
    requires |h| == |q| && CodeOk(k, |h|, h)
    ensures var same := set i: nat | i < |h| && h[i] == q[i];
      Answer(k, h, q).0 == |same| && Answer(k, h, q).0 + Answer(k, h, q).1 == |multiset(h) * multiset(q)|
  {
    FullMatches(h, q, |h|);
    assert Matching(h, q, |h|) == set i: nat | i < |h| && h[i] == q[i];
    MinSumIs(h, q, k);
    MultiplicitiesAdd(multiset(h) * multiset(q), k);
  }

  // ----- what the answer tells

  lemma {:induction false} FullSymmetric(h: Code, q: Code, n: nat)
    requires n <= |h| == |q|
    ensures Full(h, q, n) == Full(q, h, n)
  {
    if n > 0 { FullSymmetric(h, q, n - 1); }
  }

  lemma {:induction false} MinSymmetric(h: Code, q: Code, k: nat)
    ensures MinSum(h, q, k) == MinSum(q, h, k)
  {
    if k > 0 { MinSymmetric(h, q, k - 1); }
  }

  /** It does not matter which of two codes is the hidden one. */
  lemma AnswerSymmetric(k: nat, h: Code, q: Code)
    requires |h| == |q| && CodeOk(k, |h|, h) && CodeOk(k, |q|, q)
    ensures Answer(k, h, q) == Answer(k, q, h)
  {
    FullSymmetric(h, q, |h|);
    MinSymmetric(h, q, k);
  }

  lemma {:induction false} FullMeans(h: Code, q: Code, n: nat)
    requires n <= |h| == |q|
    ensures Full(h, q, n) <= n && (Full(h, q, n) == n <==> h[..n] == q[..n])
  {
    if n > 0 {
      FullMeans(h, q, n - 1);
      assert h[..n] == h[..n - 1] + [h[n - 1]] && q[..n] == q[..n - 1] + [q[n - 1]];
    }
  }

  function CountSum(s: Code, k: nat): nat {
    if k == 0 then 0 else CountSum(s, k - 1) + Count(s, k)
  }

  lemma {:induction false} CountSumNext(s: Code, k: nat)
    requires s != []
    ensures CountSum(s, k) == CountSum(s[..|s| - 1], k) + if 1 <= s[|s| - 1] <= k then 1 else 0
  {
    if k > 0 { CountSumNext(s, k - 1); }
  }

  lemma {:induction false} CountSumOf(s: Code, k: nat)
    ensures CountSum(s, k) <= |s|
    decreases |s|
  {
    if s == [] {
      CountSumEmpty(k);
    } else {
      CountSumNext(s, k);
      CountSumOf(s[..|s| - 1], k);
    }
  }

  lemma {:induction false} CountSumEmpty(k: nat)
    ensures CountSum([], k) == 0
  {
    if k > 0 { CountSumEmpty(k - 1); }
  }

  lemma {:induction false} MinBelowCount(h: Code, q: Code, k: nat)
    ensures MinSum(h, q, k) <= CountSum(h, k)
  {
    if k > 0 { MinBelowCount(h, q, k - 1); }
  }

  /** The two numbers add up to at most n, and the first is n for the hidden code only. */
  lemma AnswerBounds(k: nat, h: Code, q: Code)
    requires |h| == |q| && CodeOk(k, |h|, h)
    ensures Answer(k, h, q).0 + Answer(k, h, q).1 <= |h|
    ensures Answer(k, h, q).0 == |h| <==> h == q
    ensures h == q ==> Answer(k, h, q) == (|h|, 0)
  {
    FullBelowMin(k, h, q);
    FullMeans(h, q, |h|);
    MinBelowCount(h, q, k);
    CountSumOf(h, k);
    assert h[..|h|] == h && q[..|q|] == q;
  }

  // ----- the program

  method FillDict(lst: Code) returns (d: map<int, nat>)
    ensures forall c :: c in d <==> c in lst
    ensures forall c :: c in d ==> d[c] == Count(lst, c)
  {
    d := map[];
    for j := 0 to |lst|
      invariant forall c :: c in d <==> c in lst[..j]
      invariant forall c :: c in d ==> d[c] == Count(lst[..j], c)
    {
      var i := lst[j];
      assert lst[..j + 1][..j] == lst[..j] && lst[..j + 1] == lst[..j] + [i];
      NotCounted(lst[..j], i);
      if i in d { d := d[i := d[i] + 1]; } else { d := d[i := 1]; }
    }
    assert lst[..|lst|] == lst;
  }

  lemma {:induction false} NotCounted(s: Code, c: int)
    ensures c !in s <==> Count(s, c) == 0
  {
    if s != [] {
      assert s == s[..|s| - 1] + [s[|s| - 1]];
      NotCounted(s[..|s| - 1], c);
    }
  }

  /** What the remaining occurrences of the colours up to k, other than those in `rest`, add up to. */
  ghost function DoneSum(h: Code, q: Code, k: nat, rest: set<int>): nat
    requires |h| == |q|
  {
    if k == 0 then 0
    else DoneSum(h, q, k - 1, rest) + if k in rest then 0 else Left(h, q, k)
  }

  /** How often colour c can still be matched once the matching positions are taken out. */
  ghost function Left(h: Code, q: Code, c: int): nat
    requires |h| == |q|
  {
    assert h[..|h|] == h && q[..|q|] == q;
    Min(Count(h, c) - Common(h, q, |h|, c), Count(q, c) - Common(h, q, |h|, c))
  }

  lemma {:induction false} DoneNext(h: Code, q: Code, k: nat, rest: set<int>, c: int)
    requires |h| == |q| && c in rest
    ensures DoneSum(h, q, k, rest - {c}) == DoneSum(h, q, k, rest) + if 1 <= c <= k then Left(h, q, c) else 0
  {
    hide Left;
    if k > 0 { DoneNext(h, q, k - 1, rest, c); }
  }

  lemma {:induction false} DoneStart(h: Code, q: Code, k: nat, rest: set<int>)
    requires |h| == |q| && forall c :: c in h ==> c in rest
    ensures DoneSum(h, q, k, rest) == 0
  {
    if k > 0 {
      DoneStart(h, q, k - 1, rest);
      assert h[..|h|] == h;
      NotCounted(h, k);
    }
  }

  lemma {:induction false} DoneEnd(h: Code, q: Code, k: nat)
    requires |h| == |q|
    ensures DoneSum(h, q, k, {}) + CommonSum(h, q, |h|, k) == MinSum(h, q, k)
  {
    if k > 0 {
      DoneEnd(h, q, k - 1);
      assert h[..|h|] == h && q[..|q|] == q;
    }
  }

  method Check(k: nat, hidden: Code, query: Code) returns (fullyCorrect: nat, partiallyCorrect: nat)
    requires |hidden| == |query| && CodeOk(k, |hidden|, hidden)
    ensures (fullyCorrect, partiallyCorrect) == Answer(k, hidden, query)
  {
    hide Count, DoneSum, MinSum, CommonSum;
    fullyCorrect, partiallyCorrect := 0, 0;
    var hiddenDict := FillDict(hidden);
    var queryDict := FillDict(query);
    for i := 0 to |hidden|
      invariant fullyCorrect == Full(hidden, query, i)
      invariant forall c :: c in hiddenDict <==> c in hidden
      invariant forall c :: c in queryDict <==> c in query
      invariant forall c :: c in hiddenDict ==> hiddenDict[c] + Common(hidden, query, i, c) == Count(hidden, c)
      invariant forall c :: c in queryDict ==> queryDict[c] + Common(hidden, query, i, c) == Count(query, c)
    {
      if hidden[i] == query[i] {
        CommonFits(hidden, query, i + 1, hidden[i]);
        fullyCorrect := fullyCorrect + 1;
        hiddenDict := hiddenDict[hidden[i] := hiddenDict[hidden[i]] - 1];
        queryDict := queryDict[query[i] := queryDict[query[i]] - 1];
      }
    }
    FullBelowMin(k, hidden, query);
    FullByColour(hidden, query, |hidden|, k);
    partiallyCorrect := SumOfLeft(k, hidden, query, hiddenDict, queryDict);
    DoneEnd(hidden, query, k);
  }

  /** Adds up what is left in both dictionaries, over the colours of the first in any order. */
  method SumOfLeft(k: nat, ghost hidden: Code, ghost query: Code, hiddenDict: map<int, nat>, queryDict: map<int, nat>)
    returns (sum: nat)
    requires |hidden| == |query| && CodeOk(k, |hidden|, hidden)
    requires forall c :: c in hiddenDict <==> c in hidden
    requires forall c :: c in queryDict <==> c in query
    requires forall c :: c in hiddenDict ==> hiddenDict[c] + Common(hidden, query, |hidden|, c) == Count(hidden, c)
    requires forall c :: c in queryDict ==> queryDict[c] + Common(hidden, query, |hidden|, c) == Count(query, c)
    ensures sum == DoneSum(hidden, query, k, {})
  {
    hide DoneSum, Count, Common;
    var rest := hiddenDict.Keys;
    DoneStart(hidden, query, k, rest);
    sum := 0;
    while rest != {}
      invariant rest <= hiddenDict.Keys
      invariant sum == DoneSum(hidden, query, k, rest)
      decreases rest
    {
      SomeElement(rest);
      var c :| c in rest;
      DoneNext(hidden, query, k, rest, c);
      assert hidden[..|hidden|] == hidden && query[..|query|] == query;
      if c in queryDict {
        sum := sum + Min(hiddenDict[c], queryDict[c]);
      } else {
        NotCounted(query, c);
      }
      rest := rest - {c};
    }
  }

  lemma SomeElement(s: set<int>)
    requires s != {}
    ensures exists c :: c in s
  {
    assert (forall c: int :: c !in s) ==> s == {};
  }

  lemma {:induction false} CommonFits(h: Code, q: Code, n: nat, c: int)
    requires n <= |h| == |q|
    ensures Common(h, q, n, c) <= Count(h, c) && Common(h, q, n, c) <= Count(q, c)
  {
    CountPrefix(h, n, c);
    CountPrefix(q, n, c);
  }

  lemma {:induction false} CountPrefix(s: Code, n: nat, c: int)
    requires n <= |s|
    ensures Count(s[..n], c) <= Count(s, c)
    decreases |s|
  {
    if n < |s| {
      CountPrefix(s[..|s| - 1], n, c);
      assert s[..|s| - 1][..n] == s[..n];
    } else {
      assert s[..n] == s;
    }
  }
}
