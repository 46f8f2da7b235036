/** A deal of Black Lady under any messages from the clients, and the server that plays it. */
module BlackLady {
  import opened BlackLadyRules

  // ----- what holds in every state of a deal

  predicate Shape(d: Deal) {
    && 1 <= d.rule <= 7 && d.startPlayer < 4 && d.current < 4
    && |d.hands| == 4 && |d.score| == 4 && |d.total| == 4
    && 1 <= d.round <= ROUNDS + 1 && |d.taken| == d.round - 1 && |d.table| <= 4
    && forall k :: 0 <= k < |d.taken| ==> TrickShape(d.taken[k], k)
  }

  predicate TrickShape(t: Trick, k: nat) {
    t.round == k + 1 && |t.cards| == 4 && t.taker < 4
  }

  /** The player who leads trick k; the trick on the table comes after the taken ones. */
  function Leader(d: Deal, k: nat): nat
    requires Shape(d) && k <= |d.taken|
  {
    if k == 0 then d.startPlayer else d.taken[k - 1].taker
  }

  function TrickCards(d: Deal, k: nat): seq<Card>
    requires k <= |d.taken|
  {
    if k < |d.taken| then d.taken[k].cards else d.table
  }

  /** How many players play before player p in trick k. */
  function Seat(d: Deal, k: nat, p: nat): nat
    requires Shape(d) && k <= |d.taken| && p < 4
  {
    (p + 4 - Leader(d, k)) % 4
  }

  predicate Played(d: Deal, k: nat, p: nat)
    requires Shape(d) && k <= |d.taken| && p < 4
  {
    Seat(d, k, p) < |TrickCards(d, k)|
  }

  predicate Turn(d: Deal)
    requires Shape(d)
  {
    d.current == (Leader(d, |d.taken|) + |d.table|) % 4
  }

  function TakenCards(taken: seq<Trick>): multiset<Card> {
    if taken == [] then multiset{}
    else TakenCards(taken[..|taken| - 1]) + multiset(taken[|taken| - 1].cards)
  }

  function AllCards(d: Deal): multiset<Card>
    requires |d.hands| == 4
  {
    multiset(d.hands[0]) + multiset(d.hands[1]) + multiset(d.hands[2]) + multiset(d.hands[3])
    + multiset(d.table) + TakenCards(d.taken)
  }

  predicate SizeOk(d: Deal, p: nat)
    requires Shape(d) && p < 4
  {
    |d.hands[p]| + |d.taken| + (if Played(d, |d.taken|, p) then 1 else 0) == ROUNDS
  }

  /** The taker of trick k played the card that beats the others. */
  predicate TakerOk(d: Deal, k: nat)
    requires Shape(d) && k < |d.taken|
  {
    d.taken[k].taker == (Leader(d, k) + MaxIndex(d.taken[k].cards, 4)) % 4
  }

  /** Player p did not follow the suit of trick k. */
  predicate Discards(d: Deal, k: nat, p: nat)
    requires Shape(d) && k <= |d.taken| && p < 4
  {
    Played(d, k, p) && TrickCards(d, k)[Seat(d, k, p)].suit != TrickCards(d, k)[0].suit
  }

  predicate LacksSuit(hand: seq<Card>, s: Suit) {
    forall c :: c in hand ==> c.suit != s
  }

  predicate RevokeOk(d: Deal, k: nat, p: nat)
    requires Shape(d) && k <= |d.taken| && p < 4
  {
    Discards(d, k, p) ==> LacksSuit(d.hands[p], TrickCards(d, k)[0].suit)
  }

  /** A player who did not follow suit in trick k plays no card of that suit in trick l. */
  predicate NeverAgain(d: Deal, k: nat, l: nat, p: nat)
    requires Shape(d) && k < l <= |d.taken| && p < 4
  {
    Discards(d, k, p) && Played(d, l, p) ==> TrickCards(d, l)[Seat(d, l, p)].suit != TrickCards(d, k)[0].suit
  }

  function TakenPoints(rule: nat, taken: seq<Trick>, p: nat): nat {
    if taken == [] then 0
    else
      var last := taken[|taken| - 1];
      TakenPoints(rule, taken[..|taken| - 1], p) + if last.taker == p then TrickPoints(rule, last.round, last.cards) else 0
  }

  predicate ScoreOk(d: Deal, before: seq<nat>, p: nat)
    requires Shape(d) && |before| == 4 && p < 4
  {
    d.score[p] == TakenPoints(d.rule, d.taken, p) && d.total[p] == before[p] + d.score[p]
  }

  ghost predicate Sizes(d: Deal)
    requires Shape(d)
  {
    forall p: nat :: p < 4 ==> SizeOk(d, p)
  }

  ghost predicate Takers(d: Deal)
    requires Shape(d)
  {
    forall k: nat :: k < |d.taken| ==> TakerOk(d, k)
  }

  ghost predicate Honest(d: Deal)
    requires Shape(d)
  {
    && (forall k: nat, p: nat :: k <= |d.taken| && p < 4 ==> RevokeOk(d, k, p))
    && (forall k: nat, l: nat, p: nat :: k < l <= |d.taken| && p < 4 ==> NeverAgain(d, k, l, p))
  }

  ghost predicate Scores(d: Deal, before: seq<nat>)
    requires Shape(d)
  {
    |before| == 4 && forall p: nat :: p < 4 ==> ScoreOk(d, before, p)
  }

  /** Holds between the parts of a move as well; `before` are the totals before the deal. */
  ghost predicate InvMid(d: Deal, before: seq<nat>) {
    Shape(d) && Turn(d) && AllCards(d) == Deck() && Sizes(d) && Takers(d) && Honest(d) && Scores(d, before)
  }

  ghost predicate Inv(d: Deal, before: seq<nat>) {
    InvMid(d, before) && |d.table| < 4
  }

  /** A full deal before its first move. */
  ghost predicate FullDeal(d: Deal) {
    && 1 <= d.rule <= 7 && d.startPlayer < 4 && d.current == d.startPlayer && d.round == 1
    && d.table == [] && d.taken == [] && d.score == [0, 0, 0, 0] && |d.total| == 4
    && |d.hands| == 4 && (forall h :: h in d.hands ==> |h| == ROUNDS)
    && multiset(d.hands[0]) + multiset(d.hands[1]) + multiset(d.hands[2]) + multiset(d.hands[3]) == Deck()
  }

  lemma FullDealInv(d: Deal)
    requires FullDeal(d)
    ensures Inv(d, d.total)
  {
    hide Deck;
  }

  // ----- a card is played

  lemma PlayTurn(d: Deal, card: Card)
    requires Shape(d) && Turn(d) && |d.table| < 4
    ensures var d' := Play(d, card); Shape(d') && Turn(d')
    ensures Seat(d, |d.taken|, d.current) == |d.table|
    ensures forall p: nat :: p < 4 && p != d.current ==> Seat(d, |d.taken|, p) != |d.table|
  {
  }

  lemma PlayConserves(d: Deal, card: Card)
    requires Shape(d) && card in d.hands[d.current]
    ensures AllCards(Play(d, card)) == AllCards(d)
  {
    hide TakenCards, Erase, AllCards;
    var d' := Play(d, card);
    forall x ensures AllCards(d')[x] == AllCards(d)[x] {
      forall p: nat | p < 4 ensures HandCount(d', p, x) == HandCount(d, p, x) - if p == d.current && x == card then 1 else 0 {
        if p == d.current { EraseOne(d.hands[p], card); }
      }
      TableCount(d.table, card, x);
      CardCounted(d, x);
      CardCounted(d', x);
    }
  }

  function HandCount(d: Deal, p: nat, x: Card): nat
    requires p < |d.hands|
  {
    multiset(d.hands[p])[x]
  }

  lemma TableCount(table: seq<Card>, card: Card, x: Card)
    ensures multiset(table + [card])[x] == multiset(table)[x] + if x == card then 1 else 0
  {
  }

  lemma CardCounted(d: Deal, x: Card)
    requires |d.hands| == 4
    ensures AllCards(d)[x] == HandCount(d, 0, x) + HandCount(d, 1, x) + HandCount(d, 2, x) + HandCount(d, 3, x)
                              + multiset(d.table)[x] + TakenCards(d.taken)[x]
  {
    hide TakenCards;
  }

  lemma PlaySizes(d: Deal, card: Card)
    requires Shape(d) && Turn(d) && |d.table| < 4 && Sizes(d) && card in d.hands[d.current]
    ensures Shape(Play(d, card)) && Sizes(Play(d, card))
  {
    hide Turn, Seat;
    PlayTurn(d, card);
    EraseOne(d.hands[d.current], card);
    var d' := Play(d, card);
    forall p: nat | p < 4 ensures SizeOk(d', p) {
      SameSeat(d, d', |d.taken|, p);
      assert SizeOk(d, p);
    }
  }

  lemma SameSeat(d: Deal, d': Deal, k: nat, p: nat)
    requires Shape(d) && Shape(d') && k <= |d.taken| <= |d'.taken| && p < 4 && d.startPlayer == d'.startPlayer
    requires forall j :: 0 <= j < k ==> d.taken[j] == d'.taken[j]
    ensures Leader(d, k) == Leader(d', k) && Seat(d, k, p) == Seat(d', k, p)
  {
  }

  lemma PlayRevokes(d: Deal, card: Card)
    requires Shape(d) && Turn(d) && |d.table| < 4 && Honest(d)
    requires card in d.hands[d.current] && MoveLegal(d, card, d.current)
    ensures Shape(Play(d, card))
    ensures forall k: nat, p: nat :: k <= |d.taken| && p < 4 ==> RevokeOk(Play(d, card), k, p)
  {
    hide Seat, Turn;
    PlayTurn(d, card);
    EraseOne(d.hands[d.current], card);
    var d' := Play(d, card);
    forall k: nat, p: nat | k <= |d.taken| && p < 4 ensures RevokeOk(d', k, p) {
      SameSeat(d, d', k, p);
      assert RevokeOk(d, k, p);
    }
  }

  /** Playing a legal card keeps every discard honest. */
  lemma PlayHonest(d: Deal, card: Card)
    requires Shape(d) && Turn(d) && |d.table| < 4 && Honest(d)
    requires card in d.hands[d.current] && MoveLegal(d, card, d.current)
    ensures Shape(Play(d, card)) && Honest(Play(d, card))
  {
    hide Seat, Turn, MoveLegal, Erase;
    PlayTurn(d, card);
    PlayRevokes(d, card);
    var d' := Play(d, card);
    forall k: nat, l: nat, p: nat | k < l <= |d.taken| && p < 4 ensures NeverAgain(d', k, l, p) {
      SameSeat(d, d', k, p);
      SameSeat(d, d', l, p);
      assert NeverAgain(d, k, l, p);
      assert RevokeOk(d, k, p);
    }
  }

  lemma PlayKeeps(d: Deal, card: Card, before: seq<nat>)
    requires Inv(d, before) && card in d.hands[d.current] && MoveLegal(d, card, d.current)
    ensures InvMid(Play(d, card), before)
  {
    hide Honest, Sizes, Turn, AllCards, Deck, Seat, MoveLegal;
    PlayTurn(d, card);
    PlayConserves(d, card);
    PlaySizes(d, card);
    PlayHonest(d, card);
    var d' := Play(d, card);
    forall k: nat | k < |d.taken| ensures TakerOk(d', k) {
      assert TakerOk(d, k);
    }
    forall p: nat | p < 4 ensures ScoreOk(d', before, p) {
      assert ScoreOk(d, before, p);
    }
  }

  // ----- a trick is taken

  lemma CloseShape(d: Deal)
    requires Shape(d) && Turn(d) && |d.table| == 4 && d.round <= ROUNDS
    ensures Shape(Close(d)) && Turn(Close(d))
    ensures Close(d).taken == d.taken + [Trick(d.round, d.table, Close(d).current)]
    ensures Close(d).current == (Leader(d, |d.taken|) + MaxIndex(d.table, 4)) % 4
  {
  }

  lemma CloseSizes(d: Deal)
    requires Shape(d) && Turn(d) && |d.table| == 4 && d.round <= ROUNDS && Sizes(d)
    ensures Shape(Close(d)) && Sizes(Close(d))
  {
    CloseShape(d);
    var d' := Close(d);
    forall p: nat | p < 4 ensures SizeOk(d', p) {
      assert SizeOk(d, p);
    }
  }

  lemma CloseHonest(d: Deal)
    requires Shape(d) && Turn(d) && |d.table| == 4 && d.round <= ROUNDS && Honest(d)
    ensures Shape(Close(d)) && Honest(Close(d))
  {
    hide Seat, Turn, RevokeOk, NeverAgain;
    CloseShape(d);
    var d' := Close(d);
    var n := |d.taken|;
    forall k: nat, p: nat | k <= n + 1 && p < 4 ensures RevokeOk(d', k, p) { CloseRevoke(d, k, p); }
    forall k: nat, l: nat, p: nat | k < l <= n + 1 && p < 4 ensures NeverAgain(d', k, l, p) { CloseAgain(d, k, l, p); }
  }

  lemma CloseRevoke(d: Deal, k: nat, p: nat)
    requires Shape(d) && |d.table| == 4 && d.round <= ROUNDS && Honest(d) && Shape(Close(d))
    requires k <= |d.taken| + 1 == |Close(d).taken| && p < 4
    ensures RevokeOk(Close(d), k, p)
  {
    hide Seat;
    if k <= |d.taken| {
      SameSeat(d, Close(d), k, p);
      assert RevokeOk(d, k, p);
    }
  }

  lemma CloseAgain(d: Deal, k: nat, l: nat, p: nat)
    requires Shape(d) && |d.table| == 4 && d.round <= ROUNDS && Honest(d) && Shape(Close(d))
    requires k < l <= |d.taken| + 1 == |Close(d).taken| && p < 4
    ensures NeverAgain(Close(d), k, l, p)
  {
    hide Seat;
    if l <= |d.taken| {
      SameSeat(d, Close(d), k, p);
      SameSeat(d, Close(d), l, p);
      assert NeverAgain(d, k, l, p);
    }
  }

  lemma CloseKeeps(d: Deal, before: seq<nat>)
    requires InvMid(d, before) && |d.table| == 4 && d.round <= ROUNDS
    ensures Inv(Close(d), before)
  {
    hide Honest, Sizes, Turn, Deck, Seat;
    CloseShape(d);
    CloseSizes(d);
    CloseHonest(d);
    var d' := Close(d);
    assert d'.taken[..|d.taken|] == d.taken;
    forall k: nat | k < |d'.taken| ensures TakerOk(d', k) {
      SameSeat(d, d', k, 0);
      if k < |d.taken| { assert TakerOk(d, k); }
    }
    forall p: nat | p < 4 ensures ScoreOk(d', before, p) {
      assert ScoreOk(d, before, p);
    }
  }

  /** Every event, accepted or not, keeps the invariant. */
  lemma NextKeeps(d: Deal, e: Event, before: seq<nat>)
    requires Inv(d, before)
    ensures Inv(Next(d, e), before)
  {
    hide InvMid, MoveLegal, Erase;
    InvShape(d, before);
    if Accepts(d, e) {
      PlayKeeps(d, e.card, before);
      var d' := Play(d, e.card);
      NotOver(d, before);
      InvShape(d', before);
      if |d'.table| == 4 { CloseKeeps(d', before); }
      PokedAside(Move(d, e.card), false, before);
    } else {
      PokedAside(d, false, before);
      PokedAside(d, true, before);
    }
  }

  lemma InvShape(d: Deal, before: seq<nat>)
    requires InvMid(d, before)
    ensures Shape(d)
  {
  }

  lemma PokedAside(d: Deal, poked: bool, before: seq<nat>)
    requires InvMid(d, before)
    ensures InvMid(d.(poked := poked), before)
  {
    hide TakenCards, TakenPoints, Deck, Seat, MaxIndex, LacksSuit;
    var d' := d.(poked := poked);
    forall p: nat | p < 4 ensures SizeOk(d', p) && ScoreOk(d', before, p) {
      SameSeat(d, d', |d.taken|, p);
      assert SizeOk(d, p) && ScoreOk(d, before, p);
    }
    forall k: nat | k < |d.taken| ensures TakerOk(d', k) { assert TakerOk(d, k); }
    forall k: nat, p: nat | k <= |d.taken| && p < 4 ensures RevokeOk(d', k, p) {
      SameSeat(d, d', k, p);
      assert RevokeOk(d, k, p);
    }
    forall k: nat, l: nat, p: nat | k < l <= |d.taken| && p < 4 ensures NeverAgain(d', k, l, p) {
      SameSeat(d, d', k, p);
      SameSeat(d, d', l, p);
      assert NeverAgain(d, k, l, p);
    }
  }

  /** Whoever still has a card is in one of the thirteen rounds. */
  lemma NotOver(d: Deal, before: seq<nat>)
    requires Inv(d, before)
    ensures Shape(d) && (d.hands[d.current] != [] <==> d.round <= ROUNDS)
    ensures d.round > ROUNDS ==> d.table == [] && forall p: nat :: p < 4 ==> d.hands[p] == []
  {
    hide Deck, Honest, Takers, TakenCards, TakenPoints;
    PlayTurn(d, Card(Clubs, 2));
    assert SizeOk(d, d.current);
    if d.round > ROUNDS {
      assert SizeOk(d, Leader(d, |d.taken|));
      forall p: nat | p < 4 ensures d.hands[p] == [] { assert SizeOk(d, p); }
    }
  }

  // ----- whole deals

  /** Whatever the clients send, every state of a full deal keeps the invariant: hands, table
      and taken tricks partition the deck, and nobody revokes. */
  lemma {:induction false} RunInv(d: Deal, events: seq<Event>)
    requires FullDeal(d)
    ensures Inv(After(d, events), d.total)
    decreases |events|
  {
    hide Inv, Next, Deck;
    if events == [] {
      FullDealInv(d);
    } else {
      var n := |events| - 1;
      RunInv(d, events[..n]);
      NextKeeps(After(d, events[..n]), events[n], d.total);
    }
  }

  /** While the deal lasts the player to move has a card that will be accepted; afterwards
      nothing is accepted. */
  lemma SomeMoveLegal(d: Deal, before: seq<nat>)
    requires Inv(d, before)
    ensures d.round <= ROUNDS <==> exists card :: card in d.hands[d.current] && MoveLegal(d, card, d.current)
    ensures d.round <= ROUNDS && d.poked <==> exists card :: Accepts(d, Sent(d.current, d.round, card))
  {
    hide InvMid, Shape;
    InvShape(d, before);
    NotOver(d, before);
    ShapeBounds(d);
    var hand := d.hands[d.current];
    if d.round <= ROUNDS {
      var card := hand[0];
      if d.table != [] && !LacksSuit(hand, d.table[0].suit) {
        card :| card in hand && card.suit == d.table[0].suit;
      }
      assert card in hand && MoveLegal(d, card, d.current);
      if d.poked { assert Accepts(d, Sent(d.current, d.round, card)); }
    }
  }

  lemma ShapeBounds(d: Deal)
    requires Shape(d)
    ensures d.current < |d.hands|
  {
  }

  /** A taken trick went to whoever played the highest card of the suit that was led. */
  lemma TrickToHighest(d: Deal, before: seq<nat>, k: nat)
    requires Inv(d, before) && k < |d.taken|
    ensures var t := d.taken[k]; var m := Seat(d, k, t.taker);
      && |t.cards| == 4 && t.cards[m].suit == t.cards[0].suit
      && forall i :: 0 <= i < 4 && i != m && t.cards[i].suit == t.cards[0].suit ==> t.cards[i].rank < t.cards[m].rank
  {
    hide Deck, AllCards, Honest, Sizes, Scores;
    var t := d.taken[k];
    assert TakerOk(d, k) && TrickShape(t, k);
    var m := MaxIndex(t.cards, 4);
    assert Seat(d, k, t.taker) == m;
    forall i | 0 <= i < 4 && i != m && t.cards[i].suit == t.cards[0].suit ensures t.cards[i].rank < t.cards[m].rank {
      if t.cards[i].rank == t.cards[m].rank {
        TakenHolds(d.taken, k);
        TwiceInMultiset(t.cards, i, m);
        DeckOnce(t.cards[i]);
        TakenWithin(d);
      }
    }
  }

  lemma TakenWithin(d: Deal)
    requires |d.hands| == 4
    ensures TakenCards(d.taken) <= AllCards(d)
  {
  }

  lemma {:induction false} TakenHolds(taken: seq<Trick>, k: nat)
    requires k < |taken|
    ensures multiset(taken[k].cards) <= TakenCards(taken)
    decreases |taken|
  {
    if k < |taken| - 1 { TakenHolds(taken[..|taken| - 1], k); }
  }

  lemma TwiceInMultiset(s: seq<Card>, i: nat, j: nat)
    requires i < |s| && j < |s| && i != j && s[i] == s[j]
    ensures multiset(s)[s[i]] >= 2
  {
    var a, b := if i < j then i else j, if i < j then j else i;
    assert s == s[..a] + [s[a]] + s[a + 1..b] + [s[b]] + s[b + 1..];
  }

  /** The cards of the taken tricks in one row. */
  function TakenRow(taken: seq<Trick>): (r: seq<Card>)
    ensures multiset(r) == TakenCards(taken)
  {
    if taken == [] then [] else TakenRow(taken[..|taken| - 1]) + taken[|taken| - 1].cards
  }

  lemma {:induction false} TakenWorth(rule: nat, taken: seq<Trick>)
    requires forall k :: 0 <= k < |taken| ==> TrickShape(taken[k], k)
    ensures TakenPoints(rule, taken, 0) + TakenPoints(rule, taken, 1) + TakenPoints(rule, taken, 2)
            + TakenPoints(rule, taken, 3)
         == RoundsPoints(rule, |taken|) + CardsPoints(rule, TakenRow(taken))
    decreases |taken|
  {
    hide CardsPoints, RoundPoints;
    if taken != [] {
      var n := |taken| - 1;
      assert TrickShape(taken[n], n);
      TakenWorth(rule, taken[..n]);
      PointsConcat(rule, TakenRow(taken[..n]), taken[n].cards);
    } else {
      NoPoints(rule);
    }
  }

  lemma NoPoints(rule: nat)
    ensures CardsPoints(rule, []) == 0
  {
  }

  /** A finished deal has handed out every card, and its points over all players are the
      constant of its rule. */
  lemma DealPoints(d: Deal, before: seq<nat>)
    requires Inv(d, before) && d.round > ROUNDS
    ensures TakenCards(d.taken) == Deck()
    ensures d.score[0] + d.score[1] + d.score[2] + d.score[3] == RULE_TOTALS[d.rule - 1]
    ensures d.total[0] + d.total[1] + d.total[2] + d.total[3]
         == before[0] + before[1] + before[2] + before[3] + RULE_TOTALS[d.rule - 1]
  {
    hide Deck, Honest, Sizes, Takers, Turn;
    NotOver(d, before);
    assert TakenCards(d.taken) == AllCards(d);
    TakenWorth(d.rule, d.taken);
    DealWorth(d.rule, TakenRow(d.taken));
    assert ScoreOk(d, before, 0) && ScoreOk(d, before, 1) && ScoreOk(d, before, 2) && ScoreOk(d, before, 3);
  }

  /** A deal is over after exactly 52 accepted moves. */
  lemma {:induction false} MovesCounted(d: Deal, events: seq<Event>)
    requires FullDeal(d)
    ensures Accepted(d, events) == 4 * |After(d, events).taken| + |After(d, events).table|
    ensures After(d, events).round > ROUNDS <==> Accepted(d, events) == 52
    decreases |events|
  {
    hide InvMid, Deck, MoveLegal, Shape;
    if events == [] {
      OpeningIsEmpty(d);
    } else {
      var n := |events| - 1;
      MovesCounted(d, events[..n]);
      RunInv(d, events[..n]);
      InvShape(After(d, events[..n]), d.total);
      PlayedBounds(After(d, events[..n]));
    }
    RunInv(d, events);
    InvShape(After(d, events), d.total);
    NotOver(After(d, events), d.total);
    PlayedBounds(After(d, events));
  }

  lemma OpeningIsEmpty(d: Deal)
    requires FullDeal(d)
    ensures d.taken == [] && d.table == []
  {
  }

  lemma PlayedBounds(d: Deal)
    requires Shape(d)
    ensures |d.taken| == d.round - 1 && d.round <= ROUNDS + 1
  {
  }

  /** Nobody holds, or ever plays again, a suit that they did not follow. */
  lemma NobodyRevokes(d: Deal, events: seq<Event>, k: nat, l: nat, p: nat)
    requires FullDeal(d) && k < l < |After(d, events).taken| && p < 4
    ensures var r := After(d, events);
      && Shape(r) && Played(r, k, p) && Played(r, l, p)
      && var led := r.taken[k].cards[0].suit;
         r.taken[k].cards[Seat(r, k, p)].suit != led ==>
           r.taken[l].cards[Seat(r, l, p)].suit != led && LacksSuit(r.hands[p], led)
  {
    hide Turn, AllCards, Deck, Sizes, Takers, Scores;
    RunInv(d, events);
    var r := After(d, events);
    assert NeverAgain(r, k, l, p) && RevokeOk(r, k, p);
    assert TrickShape(r.taken[k], k) && TrickShape(r.taken[l], l);
  }

  // ----- who can take a card out of a hand

  /** A hand changes only when its own player, asked for a card, sends one of its cards for the
      current round; that card goes. */
  lemma OwnHandOnly(d: Deal, e: Event, p: nat)
    requires Playable(d) && p < 4 && Next(d, e).hands[p] != d.hands[p]
    ensures e.Sent? && e.player == p == d.current && d.poked && e.round == d.round && e.card in d.hands[p]
    ensures multiset(Next(d, e).hands[p]) == multiset(d.hands[p]) - multiset{e.card}
  {
    if Accepts(d, e) && p == d.current { EraseOne(d.hands[p], e.card); }
  }

  function Pokes(events: seq<Event>): nat {
    if events == [] then 0 else Pokes(events[..|events| - 1]) + if events[|events| - 1].Poke? then 1 else 0
  }

  /** Every accepted move answers a request of its own. */
  lemma {:induction false} MovesAnswerPokes(d: Deal, events: seq<Event>)
    requires Playable(d) && !d.poked
    ensures Accepted(d, events) + (if After(d, events).poked then 1 else 0) <= Pokes(events)
    decreases |events|
  {
    if events != [] {
      var n := |events| - 1;
      MovesAnswerPokes(d, events[..n]);
      NextPoked(After(d, events[..n]), events[n]);
    }
  }

  lemma NextPoked(d: Deal, e: Event)
    requires Playable(d)
    ensures Next(d, e).poked ==> e.Poke? || d.poked
    ensures Accepts(d, e) ==> d.poked && !Next(d, e).poked
  {
  }
}
