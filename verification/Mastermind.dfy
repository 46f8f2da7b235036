/** The automatic player of Mastermind, and the game: every guess after the first could be the
    hidden code, so the game comes to its end. */
module Mastermind {
  import opened MastermindJudge
  import opened Prelude

  /** The guesses so far, with their answers. */
  type History = seq<(Code, (nat, nat))>

  predicate HistoryOk(k: nat, n: nat, history: History) {
    forall e :: e in history ==> CodeOk(k, n, e.0)
  }

  /** Judged as the hidden code, s would have given all answers so far. */
  predicate Consistent(k: nat, n: nat, history: History, s: Code)
    requires HistoryOk(k, n, history) && CodeOk(k, n, s)
  {
    forall e :: e in history ==> Answer(k, s, e.0) == e.1
  }

  /** The answers are those of the hidden code. */
  predicate Honest(k: nat, n: nat, history: History, hidden: Code)
    requires HistoryOk(k, n, history) && CodeOk(k, n, hidden)
  {
    forall e :: e in history ==> e.1 == Answer(k, hidden, e.0)
  }

  // ----- all codes

  function WithLast(codes: set<Code>, c: int): set<Code> {
    set s | s in codes :: s + [c]
  }

  lemma WithLastMembers(codes: set<Code>, c: int, s: Code)
    ensures s in WithLast(codes, c) <==> s != [] && s[..|s| - 1] in codes && s[|s| - 1] == c
  {
    if s != [] { assert s == s[..|s| - 1] + [s[|s| - 1]]; }
    forall t: Code | t + [c] == s ensures s[..|s| - 1] == t && s[|s| - 1] == c {}
  }

  lemma {:induction false} WithLastSize(codes: set<Code>, c: int)
    ensures |WithLast(codes, c)| == |codes|
    decreases codes
  {
    if codes == {} {
      assert WithLast(codes, c) == {};
    } else {
      var s :| s in codes;
      WithLastSize(codes - {s}, c);
      assert WithLast(codes, c) == WithLast(codes - {s}, c) + {s + [c]};
      WithLastMembers(codes - {s}, c, s + [c]);
      assert (s + [c])[..|s|] == s;
    }
  }

  /** Codes whose last colour is at most c, extended from the given ones. */
  function Extended(codes: set<Code>, c: nat): set<Code> {
    if c == 0 then {} else Extended(codes, c - 1) + WithLast(codes, c)
  }

  lemma {:induction false} ExtendedMembers(codes: set<Code>, c: nat, s: Code)
    ensures s in Extended(codes, c) <==> s != [] && s[..|s| - 1] in codes && 1 <= s[|s| - 1] <= c
  {
    if c > 0 {
      ExtendedMembers(codes, c - 1, s);
      WithLastMembers(codes, c, s);
    }
  }

  lemma OnceMore(c: nat, n: nat)
    requires c > 0
    ensures c * n == (c - 1) * n + n
  {
  }

  lemma {:induction false} ExtendedSize(codes: set<Code>, c: nat)
    ensures |Extended(codes, c)| == c * |codes|
  {
    hide WithLast;
    if c > 0 {
      ExtendedSize(codes, c - 1);
      WithLastSize(codes, c);
      assert Extended(codes, c - 1) !! WithLast(codes, c) by {
        forall s | s in WithLast(codes, c) ensures s !in Extended(codes, c - 1) {
          ExtendedMembers(codes, c - 1, s);
          WithLastMembers(codes, c, s);
        }
      }
      OnceMore(c, |codes|);
    }
  }

  function AllCodes(k: nat, n: nat): set<Code> {
    if n == 0 then {[]} else Extended(AllCodes(k, n - 1), k)
  }

  lemma {:induction false} AllCodesAre(k: nat, n: nat, s: Code)
    ensures s in AllCodes(k, n) <==> CodeOk(k, n, s)
  {
    if n > 0 {
      ExtendedMembers(AllCodes(k, n - 1), k, s);
      if s != [] { AllCodesAre(k, n - 1, s[..|s| - 1]); }
    }
  }

  function Power(k: nat, n: nat): nat {
    if n == 0 then 1 else k * Power(k, n - 1)
  }

  lemma {:induction false} AllCodesCount(k: nat, n: nat)
    ensures |AllCodes(k, n)| == Power(k, n)
  {
    if n > 0 {
      AllCodesCount(k, n - 1);
      ExtendedSize(AllCodes(k, n - 1), k);
    }
  }

  // ----- what a guess tells

  /** The codes that could still be hidden. */
  ghost function Possible(k: nat, n: nat, history: History): (r: set<Code>)
    requires HistoryOk(k, n, history)
    ensures forall s :: s in r <==> CodeOk(k, n, s) && Consistent(k, n, history, s)
  {
    forall s ensures s in AllCodes(k, n) <==> CodeOk(k, n, s) { AllCodesAre(k, n, s); }
    set s | s in AllCodes(k, n) && CodeOk(k, n, s) && Consistent(k, n, history, s)
  }

  lemma HiddenPossible(k: nat, n: nat, history: History, hidden: Code)
    requires HistoryOk(k, n, history) && CodeOk(k, n, hidden) && Honest(k, n, history, hidden)
    ensures hidden in Possible(k, n, history)
  {
  }

  /** A possible guess that loses is not possible any more, and nothing new becomes possible. */
  lemma GuessNarrows(k: nat, n: nat, history: History, hidden: Code, guess: Code)
    requires HistoryOk(k, n, history) && CodeOk(k, n, hidden) && CodeOk(k, n, guess)
    requires guess in Possible(k, n, history) && guess != hidden
    ensures var after := history + [(guess, Answer(k, hidden, guess))];
      && HistoryOk(k, n, after)
      && Possible(k, n, after) < Possible(k, n, history) && guess !in Possible(k, n, after)
  {
    var entry := (guess, Answer(k, hidden, guess));
    var after := history + [entry];
    assert HistoryOk(k, n, after);
    forall s | s in Possible(k, n, after) ensures s in Possible(k, n, history) {
      assert forall e :: e in history ==> e in after;
    }
    assert entry in after;
    AnswerBounds(k, hidden, guess);
    AnswerBounds(k, guess, guess);
  }

  /** A guess that is possible was not made before, as long as no guess has won. */
  lemma NoGuessTwice(k: nat, n: nat, history: History, hidden: Code, guess: Code)
    requires HistoryOk(k, n, history) && CodeOk(k, n, hidden) && Honest(k, n, history, hidden)
    requires forall e :: e in history ==> e.1.0 != n
    requires guess in Possible(k, n, history)
    ensures forall e :: e in history ==> e.0 != guess
  {
    forall e | e in history ensures e.0 != guess {
      AnswerBounds(k, guess, e.0);
      assert Answer(k, guess, e.0) == e.1;
    }
  }

  // ----- codes in the order in which brute force tries them

  predicate Before(a: Code, b: Code)
    requires |a| == |b|
  {
    exists i :: 0 <= i < |a| && a[..i] == b[..i] && a[i] < b[i]
  }

  /** The answer of the search below one prefix. */
  ghost predicate Searched(k: nat, n: nat, history: History, prefix: Code, found: bool, result: Code)
    requires HistoryOk(k, n, history) && |prefix| <= n
  {
    if found then
      && CodeOk(k, n, result) && Consistent(k, n, history, result) && result[..|prefix|] == prefix
      && forall s :: CodeOk(k, n, s) && Consistent(k, n, history, s) && s[..|prefix|] == prefix ==> s == result || Before(result, s)
    else
      forall s :: CodeOk(k, n, s) && s[..|prefix|] == prefix ==> !Consistent(k, n, history, s)
  }

  /** The prefixes with a colour below c have been searched without success. */
  ghost predicate NoneBelow(k: nat, n: nat, history: History, prefix: Code, c: int)
    requires HistoryOk(k, n, history) && |prefix| < n
  {
    forall s :: CodeOk(k, n, s) && s[..|prefix|] == prefix && s[|prefix|] < c ==> !Consistent(k, n, history, s)
  }

  lemma SearchedNone(k: nat, n: nat, history: History, prefix: Code, c: int)
    requires HistoryOk(k, n, history) && |prefix| < n && NoneBelow(k, n, history, prefix, c)
    requires Searched(k, n, history, prefix + [c], false, [])
    ensures NoneBelow(k, n, history, prefix, c + 1)
  {
    forall s | CodeOk(k, n, s) && s[..|prefix|] == prefix && s[|prefix|] < c + 1
      ensures !Consistent(k, n, history, s)
    {
      if s[|prefix|] == c { assert s[..|prefix| + 1] == prefix + [c]; }
    }
  }

  lemma SearchedFirst(k: nat, n: nat, history: History, prefix: Code, c: int, result: Code)
    requires HistoryOk(k, n, history) && |prefix| < n && NoneBelow(k, n, history, prefix, c)
    requires Searched(k, n, history, prefix + [c], true, result)
    ensures Searched(k, n, history, prefix, true, result)
  {
    var m := |prefix|;
    assert result[..m + 1][..m] == result[..m] && result[..m + 1][m] == result[m];
    assert (prefix + [c])[..m] == prefix && (prefix + [c])[m] == c;
    forall s | CodeOk(k, n, s) && Consistent(k, n, history, s) && s[..m] == prefix
      ensures s == result || Before(result, s)
    {
      if s[m] == c {
        assert s[..m + 1] == prefix + [c];
      } else {
        assert result[..m] == s[..m] && result[m] < s[m];
      }
    }
  }

  /** The chromosome would have given the first m answers. */
  ghost predicate MatchesTo(k: nat, n: nat, history: History, s: Code, m: nat)
    requires HistoryOk(k, n, history) && CodeOk(k, n, s) && m <= |history|
  {
    forall j :: 0 <= j < m ==> history[j] in history && Answer(k, s, history[j].0) == history[j].1
  }

  lemma ConsistentTo(k: nat, n: nat, history: History, s: Code)
    requires HistoryOk(k, n, history) && CodeOk(k, n, s)
    ensures Consistent(k, n, history, s) <==> MatchesTo(k, n, history, s, |history|)
  {
    if MatchesTo(k, n, history, s, |history|) {
      forall e | e in history ensures Answer(k, s, e.0) == e.1 {
        var j :| 0 <= j < |history| && history[j] == e;
      }
    }
  }

  lemma WeightPositive(n: nat, roundNumber: nat)
    requires n > 0 && roundNumber >= 2
    ensures 2 * n * (roundNumber - 1) > 0
  {
  }

  class AutomaticPlayer {
    const k: nat
    const n: nat
    var previousQueries: seq<Code>
    var previousResults: seq<(nat, nat)>

    ghost predicate Valid()
      reads this
    {
      && |previousQueries| == |previousResults|
      && forall q :: q in previousQueries ==> CodeOk(k, n, q)
    }

    function Zipped(): (r: History)
      reads this
      requires |previousQueries| == |previousResults|
      ensures |r| == |previousQueries|
      ensures forall i :: 0 <= i < |r| ==> r[i] == (previousQueries[i], previousResults[i])
    {
      seq(|previousQueries|, i requires 0 <= i < |previousQueries| reads this
                               requires |previousQueries| == |previousResults| =>
                               (previousQueries[i], previousResults[i]))
    }

    constructor (k: nat, n: nat)
      ensures this.k == k && this.n == n && Valid() && Zipped() == []
    {
      this.k, this.n := k, n;
      previousQueries, previousResults := [], [];
    }

    /** Whether the chromosome could be the hidden code; the other result is what the fitness
        divides by. */
    method AssessFitness(chromosome: Code, roundNumber: nat) returns (denominator: nat, valid: bool)
      requires Valid() && HistoryOk(k, n, Zipped()) && CodeOk(k, n, chromosome) && roundNumber >= 2 && n > 0
      ensures valid <==> Consistent(k, n, Zipped(), chromosome)
      ensures denominator > 0 && (valid ==> denominator == 2 * n * (roundNumber - 1))
    {
      hide Answer, Consistent;
      var weight := 2 * n * (roundNumber - 1);
      WeightPositive(n, roundNumber);
      var full: nat, partial: nat := 0, 0;
      LengthOf(k, n, chromosome);
      ConsistentTo(k, n, Zipped(), chromosome);
      for i := 0 to |previousQueries|
        invariant full + partial == 0 <==> MatchesTo(k, n, Zipped(), chromosome, i)
      {
        assert Zipped()[i] in Zipped();
        LengthOf(k, n, previousQueries[i]);
        var a, b := Check(k, chromosome, previousQueries[i]);
        var r := previousResults[i];
        assert Zipped()[i] == (previousQueries[i], r) && (a, b) == Answer(k, chromosome, previousQueries[i]);
        full := full + if a >= r.0 then a - r.0 else r.0 - a;
        partial := partial + if b >= r.1 then b - r.1 else r.1 - b;
      }
      denominator := weight + full + partial;
      valid := full + partial == 0;
    }

    /** Tries every code below the prefix that `sequence` holds, in place. */
    method Backtrack(sequence: array<int>, index: nat, roundNumber: nat) returns (found: bool)
      requires Valid() && HistoryOk(k, n, Zipped()) && roundNumber >= 2 && n > 0
      requires sequence.Length == n && index <= n && CodeOk(k, index, sequence[..index])
      modifies sequence
      ensures sequence[..index] == old(sequence[..index])
      ensures Searched(k, n, Zipped(), old(sequence[..index]), found, if found then sequence[..] else [])
      decreases n - index
    {
      hide Consistent, CodeOk;
      ghost var prefix := sequence[..index];
      if index == n {
        assert sequence[..] == prefix;
        var _, valid := AssessFitness(sequence[..], roundNumber);
        WholeCode(k, n, Zipped(), prefix, valid);
        return valid;
      }
      NoneYet(k, n, Zipped(), prefix);
      for i := 1 to k + 1
        invariant sequence[..index] == prefix
        invariant NoneBelow(k, n, Zipped(), prefix, i)
      {
        sequence[index] := i;
        assert sequence[..index + 1] == prefix + [i];
        OneMore(k, prefix, i);
        var result := Backtrack(sequence, index + 1, roundNumber);
        assert sequence[..index + 1][..index] == prefix;
        if result {
          SearchedFirst(k, n, Zipped(), prefix, i, sequence[..]);
          return true;
        }
        SearchedNone(k, n, Zipped(), prefix, i);
      }
      AllTried(k, n, Zipped(), prefix);
      return false;
    }

    /** The first possible code, when there is one. */
    method BruteForceGuess(roundNumber: nat) returns (guess: Code)
      requires Valid() && HistoryOk(k, n, Zipped()) && roundNumber >= 2 && n > 0
      requires Possible(k, n, Zipped()) != {}
      ensures guess in Possible(k, n, Zipped())
      ensures forall s :: s in Possible(k, n, Zipped()) ==> s == guess || Before(guess, s)
    {
      var sequence := new int[n](_ => 1);
      assert sequence[..0] == [];
      var found := Backtrack(sequence, 0, roundNumber);
      ghost var s :| s in Possible(k, n, Zipped());
      assert s[..0] == [] && sequence[..][..0] == [];
      forall t: Code ensures t[..0] == [] {}
      guess := sequence[..];
    }

    /** The guess of a round. What the genetic search comes up with is any list of codes. */
    method GenerateGuess(roundNumber: nat, candidates: seq<Code>) returns (guess: Code)
      requires Valid() && HistoryOk(k, n, Zipped()) && roundNumber >= 2 && n > 0
      requires Possible(k, n, Zipped()) != {} && forall c :: c in candidates ==> CodeOk(k, n, c)
      ensures guess in Possible(k, n, Zipped())
    {
      var validGuesses: seq<Code> := [];
      for i := 0 to |candidates|
        invariant forall c :: c in validGuesses ==> c in Possible(k, n, Zipped())
      {
        var _, valid := AssessFitness(candidates[i], roundNumber);
        if valid { validGuesses := validGuesses + [candidates[i]]; }
      }
      if validGuesses == [] {
        guess := BruteForceGuess(roundNumber);
      } else {
        guess := validGuesses[|validGuesses| - 1];
      }
    }

    method GetNextQuery(roundNumber: nat, candidates: seq<Code>) returns (guess: Code)
      requires Valid() && HistoryOk(k, n, Zipped()) && roundNumber >= 1 && n > 0 && k > 0
      requires Possible(k, n, Zipped()) != {} && forall c :: c in candidates ==> CodeOk(k, n, c)
      requires roundNumber == 1 ==> Zipped() == []
      ensures guess in Possible(k, n, Zipped())
      ensures roundNumber == 1 ==> guess == seq(n, i => i % k + 1)
    {
      if roundNumber == 1 {
        guess := seq(n, i => i % k + 1);
      } else {
        guess := GenerateGuess(roundNumber, candidates);
      }
    }

    method UpdateQueryResult(query: Code, result: (nat, nat))
      requires Valid() && CodeOk(k, n, query)
      modifies this
      ensures Valid() && Zipped() == old(Zipped()) + [(query, result)]
    {
      previousResults := previousResults + [result];
      previousQueries := previousQueries + [query];
    }
  }

  lemma NoneYet(k: nat, n: nat, history: History, prefix: Code)
    requires HistoryOk(k, n, history) && |prefix| < n
    ensures NoneBelow(k, n, history, prefix, 1)
  {
  }

  lemma OneMore(k: nat, prefix: Code, c: int)
    requires CodeOk(k, |prefix|, prefix) && 1 <= c <= k
    ensures CodeOk(k, |prefix| + 1, prefix + [c])
  {
  }

  lemma AllTried(k: nat, n: nat, history: History, prefix: Code)
    requires HistoryOk(k, n, history) && |prefix| < n && NoneBelow(k, n, history, prefix, k + 1)
    ensures Searched(k, n, history, prefix, false, [])
  {
  }

  lemma WholeCode(k: nat, n: nat, history: History, s: Code, valid: bool)
    requires HistoryOk(k, n, history) && CodeOk(k, n, s) && (valid <==> Consistent(k, n, history, s))
    ensures Searched(k, n, history, s, valid, if valid then s else [])
  {
    assert s[..n] == s;
    forall t | CodeOk(k, n, t) && t[..n] == s ensures t == s { assert t[..n] == t; }
  }

  /** What holds before every round of a game: no guess has won yet, and every round has ruled
      out at least one code. */
  ghost predicate Underway(k: nat, n: nat, history: History, hidden: Code) {
    && CodeOk(k, n, hidden) && HistoryOk(k, n, history) && Honest(k, n, history, hidden)
    && (forall e :: e in history ==> e.0 != hidden)
    && (forall i, j :: 0 <= i < j < |history| ==> history[i].0 != history[j].0)
    && |history| + |Possible(k, n, history)| <= Power(k, n)
  }

  lemma UnderwayAtFirst(k: nat, n: nat, hidden: Code)
    requires CodeOk(k, n, hidden)
    ensures Underway(k, n, [], hidden)
  {
    AllCodesCount(k, n);
    forall s ensures s in AllCodes(k, n) <==> s in Possible(k, n, []) { AllCodesAre(k, n, s); }
    assert Possible(k, n, []) == AllCodes(k, n);
  }

  lemma SmallerSet(a: set<Code>, b: set<Code>)
    requires a < b
    ensures |a| < |b|
  {
    var x :| x in b && x !in a;
    assert a <= b - {x};
    SubsetSize(a, b - {x});
  }

  /** A round: the guess is new, it wins exactly when it is the hidden code, and a guess that
      loses leaves fewer codes. */
  lemma RoundPlayed(k: nat, n: nat, history: History, hidden: Code, guess: Code)
    requires Underway(k, n, history, hidden) && guess in Possible(k, n, history)
    ensures CodeOk(k, n, hidden) && CodeOk(k, n, guess) && HistoryOk(k, n, history)
    ensures forall e :: e in history ==> e.0 != guess
    ensures Answer(k, hidden, guess).0 == n <==> guess == hidden
    ensures guess != hidden ==>
      var after := history + [(guess, Answer(k, hidden, guess))];
      && Underway(k, n, after, hidden)
      && |Possible(k, n, after)| < |Possible(k, n, history)|
  {
    hide Answer, Possible, CodeOk, Consistent;
    assert CodeOk(k, n, guess);
    LengthOf(k, n, guess);
    LengthOf(k, n, hidden);
    forall e | e in history ensures e.1.0 != n {
      LengthOf(k, n, e.0);
      AnswerBounds(k, hidden, e.0);
    }
    NoGuessTwice(k, n, history, hidden, guess);
    AnswerBounds(k, hidden, guess);
    if guess != hidden {
      GuessNarrows(k, n, history, hidden, guess);
      var after := history + [(guess, Answer(k, hidden, guess))];
      SmallerSet(Possible(k, n, after), Possible(k, n, history));
    }
  }

  lemma RoundsLeft(k: nat, n: nat, history: History, hidden: Code)
    requires Underway(k, n, history, hidden)
    ensures |history| < Power(k, n)
  {
    HiddenPossible(k, n, history, hidden);
    SubsetSize({hidden}, Possible(k, n, history));
  }

  lemma LengthOf(k: nat, n: nat, s: Code)
    requires CodeOk(k, n, s)
    ensures |s| == n && CodeOk(k, |s|, s)
  {
  }

  /** An automatic game: it ends, the last guess alone is the hidden code, no guess is made
      twice, and there are at most as many rounds as codes. */
  method Play(player: AutomaticPlayer, hidden: Code, search: nat -> seq<Code>) returns (rounds: nat)
    requires player.Valid() && player.previousQueries == [] && player.k > 0 && player.n >= 2
    requires CodeOk(player.k, player.n, hidden)
    requires forall r, c :: c in search(r) ==> CodeOk(player.k, player.n, c)
    modifies player
    ensures player.Valid() && |player.Zipped()| == rounds
    ensures 1 <= rounds <= Power(player.k, player.n)
    ensures forall i :: 0 <= i < rounds ==> (player.Zipped()[i].0 == hidden <==> i == rounds - 1)
    ensures forall i, j :: 0 <= i < j < rounds ==> player.Zipped()[i].0 != player.Zipped()[j].0
  {
    hide Possible, Consistent, Honest, Answer, CodeOk, Power;
    var k, n := player.k, player.n;
    UnderwayAtFirst(k, n, hidden);
    assert player.Zipped() == [];
    var roundNumber := 1;
    var won := false;
    ghost var history: History := [];
    while !won
      invariant player.Valid() && player.k == k && player.n == n
      invariant roundNumber == |history| + 1
      invariant Underway(k, n, history, hidden)
      invariant !won ==> player.Zipped() == history
      invariant won ==> exists r :: player.Zipped() == history + [(hidden, r)]
      decreases if won then 0 else 1, |Possible(k, n, history)|
    {
      HiddenPossible(k, n, history, hidden);
      var query := player.GetNextQuery(roundNumber, search(roundNumber));
      RoundPlayed(k, n, history, hidden, query);
      LengthOf(k, n, query);
      LengthOf(k, n, hidden);
      var full, partial := Check(k, hidden, query);
      player.UpdateQueryResult(query, (full, partial));
      if full == n {
        won := true;
      } else {
        history := player.Zipped();
        roundNumber := roundNumber + 1;
      }
    }
    RoundsLeft(k, n, history, hidden);
    rounds := roundNumber;
  }
}
