/** The rules of a deal of Black Lady as the server keeps them: moves, tricks, points. */
module BlackLadyRules {

  const ROUNDS: nat := 13
  const MAX_CLIENTS: nat := 4

  type Rank = r: int | 2 <= r <= 14 witness 2
  const JACK: Rank := 11
  const QUEEN: Rank := 12
  const KING: Rank := 13

  datatype Suit = Clubs | Diamonds | Hearts | Spades

  datatype Card = Card(suit: Suit, rank: Rank)

  /** A trick that was taken: its number, its cards in the order they were played, its taker. */
  datatype Trick = Trick(round: nat, cards: seq<Card>, taker: nat)

  datatype Deal = Deal(rule: nat, startPlayer: nat, round: nat, current: nat, poked: bool, table: seq<Card>,
                       hands: seq<seq<Card>>, taken: seq<Trick>, score: seq<nat>, total: seq<nat>)

  /** Cards of different suits do not compare. */
  predicate Higher(a: Card, b: Card) {
    a.suit == b.suit && a.rank > b.rank
  }

  /** The index of the card that beats the others among the first n. */
  function MaxIndex(table: seq<Card>, n: nat): (m: nat)
    requires 0 < n <= |table|
    ensures m < n && table[m].suit == table[0].suit
    ensures forall i :: 0 <= i < n && table[i].suit == table[0].suit ==> table[i].rank <= table[m].rank
  {
    if n == 1 then 0
    else
      var m := MaxIndex(table, n - 1);
      if Higher(table[n - 1], table[m]) then n - 1 else m
  }

  function CardPoints(rule: nat, c: Card): nat {
    (if (rule == 2 || rule == 7) && c.suit == Hearts then 1 else 0)
    + (if (rule == 3 || rule == 7) && c.rank == QUEEN then 5 else 0)
    + (if (rule == 4 || rule == 7) && (c.rank == JACK || c.rank == KING) then 2 else 0)
    + (if (rule == 5 || rule == 7) && c.rank == KING && c.suit == Hearts then 18 else 0)
  }

  function CardsPoints(rule: nat, cards: seq<Card>): nat {
    if cards == [] then 0 else CardsPoints(rule, cards[..|cards| - 1]) + CardPoints(rule, cards[|cards| - 1])
  }

  function RoundPoints(rule: nat, round: nat): nat {
    (if rule == 1 || rule == 7 then 1 else 0)
    + (if (rule == 6 || rule == 7) && (round == 7 || round == 13) then 10 else 0)
  }

  function TrickPoints(rule: nat, round: nat, cards: seq<Card>): nat {
    RoundPoints(rule, round) + CardsPoints(rule, cards)
  }

  predicate MoveLegal(d: Deal, card: Card, player: nat)
    requires player < |d.hands|
  {
    d.table == [] || card.suit == d.table[0].suit || forall c :: c in d.hands[player] ==> c.suit != d.table[0].suit
  }

  /** The hand without the first copy of the card. */
  function Erase(hand: seq<Card>, card: Card): seq<Card> {
    if hand == [] then [] else if hand[0] == card then hand[1..] else [hand[0]] + Erase(hand[1..], card)
  }

  /** The card goes from the hand to the table, and the next player is to move. */
  function Play(d: Deal, card: Card): Deal
    requires d.current < |d.hands|
  {
    d.(table := d.table + [card], hands := d.hands[d.current := Erase(d.hands[d.current], card)],
       current := (d.current + 1) % MAX_CLIENTS)
  }

  /** The full table goes to its taker, who gets the points and leads the next trick. */
  function Close(d: Deal): Deal
    requires |d.table| == MAX_CLIENTS && |d.score| == |d.total| == MAX_CLIENTS
  {
    var taker := (d.current + MaxIndex(d.table, MAX_CLIENTS)) % MAX_CLIENTS;
    var points := TrickPoints(d.rule, d.round, d.table);
    d.(table := [], taken := d.taken + [Trick(d.round, d.table, taker)], round := d.round + 1, current := taker,
       score := d.score[taker := d.score[taker] + points], total := d.total[taker := d.total[taker] + points])
  }

  function Move(d: Deal, card: Card): Deal
    requires d.current < |d.hands| && |d.score| == |d.total| == MAX_CLIENTS
  {
    var played := Play(d, card);
    if |played.table| == MAX_CLIENTS then Close(played) else played
  }

  /** What can happen while a deal is played: the player to move has been asked for a card,
      the time to answer has passed, or a client has sent a card. */
  datatype Event = Poke | Timeout | Sent(player: nat, round: nat, card: Card)

  predicate Accepts(d: Deal, e: Event)
    requires d.current < |d.hands|
  {
    e.Sent? && e.player == d.current && d.poked && e.round == d.round
    && e.card in d.hands[d.current] && MoveLegal(d, e.card, d.current)
  }

  predicate Playable(d: Deal) {
    d.current < |d.hands| == MAX_CLIENTS && |d.score| == |d.total| == MAX_CLIENTS
  }

  function Next(d: Deal, e: Event): (r: Deal)
    requires Playable(d)
    ensures Playable(r)
  {
    match e
    case Poke => d.(poked := true)
    case Timeout => d.(poked := false)
    case Sent(player, _, card) =>
      if Accepts(d, e) then Move(d, card).(poked := false)
      else if player == d.current && d.poked then d.(poked := false)
      else d
  }

  /** The deal after the events. */
  function After(d: Deal, events: seq<Event>): (r: Deal)
    requires Playable(d)
    ensures Playable(r)
  {
    if events == [] then d else Next(After(d, events[..|events| - 1]), events[|events| - 1])
  }

  /** How many of the events were accepted moves. */
  function Accepted(d: Deal, events: seq<Event>): nat
    requires Playable(d)
  {
    if events == [] then 0
    else
      var n := |events| - 1;
      Accepted(d, events[..n]) + if Accepts(After(d, events[..n]), events[n]) then 1 else 0
  }

  // ----- the deck

  function SuitCards(s: Suit): seq<Card> {
    seq(13, i requires 0 <= i < 13 => Card(s, i + 2))
  }

  function DeckCards(): seq<Card> {
    SuitCards(Clubs) + SuitCards(Diamonds) + SuitCards(Hearts) + SuitCards(Spades)
  }

  function Deck(): multiset<Card> {
    multiset(DeckCards())
  }

  lemma {:induction false} SuitOnce(s: Suit, n: nat, c: Card)
    requires n <= 13
    ensures multiset(SuitCards(s)[..n])[c] == if c.suit == s && c.rank < n + 2 then 1 else 0
  {
    if n > 0 {
      SuitOnce(s, n - 1, c);
      assert SuitCards(s)[..n] == SuitCards(s)[..n - 1] + [Card(s, n + 1)];
    }
  }

  /** The deck holds every card exactly once. */
  lemma DeckOnce(c: Card)
    ensures Deck()[c] == 1
  {
    SuitOnce(Clubs, 13, c);
    SuitOnce(Diamonds, 13, c);
    SuitOnce(Hearts, 13, c);
    SuitOnce(Spades, 13, c);
    assert forall s :: SuitCards(s)[..13] == SuitCards(s);
  }

  // ----- points do not depend on the order of the cards

  lemma {:induction false} PointsConcat(rule: nat, a: seq<Card>, b: seq<Card>)
    ensures CardsPoints(rule, a + b) == CardsPoints(rule, a) + CardsPoints(rule, b)
  {
    if b == [] {
      assert a + b == a;
    } else {
      var n := |b| - 1;
      assert (a + b)[..|a + b| - 1] == a + b[..n];
      PointsConcat(rule, a, b[..n]);
    }
  }

  lemma TakenOut(rule: nat, b: seq<Card>, k: nat)
    requires k < |b|
    ensures multiset(b[..k] + b[k + 1..]) == multiset(b) - multiset{b[k]}
    ensures CardsPoints(rule, b) == CardsPoints(rule, b[..k] + b[k + 1..]) + CardsPoints(rule, [b[k]])
  {
    hide CardsPoints;
    assert b == b[..k] + [b[k]] + b[k + 1..];
    PointsConcat(rule, b[..k], [b[k]]);
    PointsConcat(rule, b[..k] + [b[k]], b[k + 1..]);
    PointsConcat(rule, b[..k], b[k + 1..]);
  }

  lemma {:induction false} PointsOfMultiset(rule: nat, a: seq<Card>, b: seq<Card>)
    requires multiset(a) == multiset(b)
    ensures CardsPoints(rule, a) == CardsPoints(rule, b)
    decreases |a|
  {
    if a == [] {
      assert |multiset(a)| == |multiset(b)| == |b|;
    } else {
      var n := |a| - 1;
      var c := a[n];
      assert a == a[..n] + [c];
      assert c in multiset(b);
      var k :| 0 <= k < |b| && b[k] == c;
      var rest := b[..k] + b[k + 1..];
      assert multiset(a[..n]) == multiset(a) - multiset{c};
      TakenOut(rule, b, k);
      PointsOfMultiset(rule, a[..n], rest);
      PointsConcat(rule, a[..n], [c]);
    }
  }

  lemma SuitStep(rule: nat, s: Suit, n: nat)
    requires n < 13
    ensures CardsPoints(rule, SuitCards(s)[..n + 1]) == CardsPoints(rule, SuitCards(s)[..n]) + CardPoints(rule, Card(s, n + 2))
  {
    var cards := SuitCards(s)[..n + 1];
    assert cards[..n] == SuitCards(s)[..n];
  }

  /** What the thirteen cards of a suit are worth. */
  function SuitPoints(rule: nat, s: Suit): nat {
    (if (rule == 2 || rule == 7) && s == Hearts then 13 else 0)
    + (if rule == 3 || rule == 7 then 5 else 0)
    + (if rule == 4 || rule == 7 then 4 else 0)
    + (if (rule == 5 || rule == 7) && s == Hearts then 18 else 0)
  }

  lemma {:induction false} PlainCards(rule: nat, s: Suit, n: nat)
    requires n <= 9
    ensures CardsPoints(rule, SuitCards(s)[..n]) == if (rule == 2 || rule == 7) && s == Hearts then n else 0
  {
    if n > 0 {
      PlainCards(rule, s, n - 1);
      SuitStep(rule, s, n - 1);
    }
  }

  lemma SuitWorth(rule: nat, s: Suit)
    ensures CardsPoints(rule, SuitCards(s)) == SuitPoints(rule, s)
  {
    PlainCards(rule, s, 9);
    SuitStep(rule, s, 9);
    SuitStep(rule, s, 10);
    SuitStep(rule, s, 11);
    SuitStep(rule, s, 12);
    assert SuitCards(s)[..13] == SuitCards(s);
  }

  /** What all cards of a deal are worth under a rule. */
  lemma DeckWorth(rule: nat)
    ensures CardsPoints(rule, DeckCards()) ==
      SuitPoints(rule, Clubs) + SuitPoints(rule, Diamonds) + SuitPoints(rule, Hearts) + SuitPoints(rule, Spades)
  {
    hide SuitPoints, CardsPoints, SuitCards;
    var c, d, h, s := SuitCards(Clubs), SuitCards(Diamonds), SuitCards(Hearts), SuitCards(Spades);
    PointsConcat(rule, c, d);
    PointsConcat(rule, c + d, h);
    PointsConcat(rule, c + d + h, s);
    SuitWorth(rule, Clubs);
    SuitWorth(rule, Diamonds);
    SuitWorth(rule, Hearts);
    SuitWorth(rule, Spades);
  }

  lemma {:induction false} EraseOne(hand: seq<Card>, card: Card)
    requires card in hand
    ensures multiset(Erase(hand, card)) == multiset(hand) - multiset{card}
    ensures |Erase(hand, card)| == |hand| - 1
    ensures forall c :: c in Erase(hand, card) ==> c in hand
  {
    assert hand == [hand[0]] + hand[1..];
    if hand[0] != card { EraseOne(hand[1..], card); }
  }

  // ----- the points of a whole deal

  /** The points of a whole deal under each of the rules 1 to 7. */
  const RULE_TOTALS: seq<nat> := [13, 13, 20, 16, 18, 20, 100]

  function RoundsPoints(rule: nat, n: nat): nat {
    if n == 0 then 0 else RoundsPoints(rule, n - 1) + RoundPoints(rule, n)
  }

  lemma {:induction false} RoundsWorth(rule: nat, n: nat)
    requires n <= ROUNDS
    ensures RoundsPoints(rule, n) ==
      (if rule == 1 || rule == 7 then n else 0)
      + (if rule == 6 || rule == 7 then (if n >= 7 then 10 else 0) + (if n >= 13 then 10 else 0) else 0)
  {
    if n > 0 { RoundsWorth(rule, n - 1); }
  }

  /** Thirteen tricks that hold the whole deck are worth the rule's constant. */
  lemma DealWorth(rule: nat, cards: seq<Card>)
    requires 1 <= rule <= 7 && multiset(cards) == Deck()
    ensures RoundsPoints(rule, ROUNDS) + CardsPoints(rule, cards) == RULE_TOTALS[rule - 1]
  {
    hide CardsPoints, SuitCards;
    PointsOfMultiset(rule, cards, DeckCards());
    DeckWorth(rule);
    RoundsWorth(rule, ROUNDS);
  }

  // ----- the parts of the points, and the message about a taken trick

  /** What rule 2, 3, 4 or 5 alone gives for a card. */
  function KindPoints(kind: nat, c: Card): nat {
    if kind == 2 && c.suit == Hearts then 1
    else if kind == 3 && c.rank == QUEEN then 5
    else if kind == 4 && (c.rank == JACK || c.rank == KING) then 2
    else if kind == 5 && c.rank == KING && c.suit == Hearts then 18
    else 0
  }

  function KindSum(kind: nat, cards: seq<Card>): nat {
    if cards == [] then 0 else KindSum(kind, cards[..|cards| - 1]) + KindPoints(kind, cards[|cards| - 1])
  }

  lemma {:induction false} KindsAdd(rule: nat, cards: seq<Card>)
    requires 1 <= rule <= 7
    ensures CardsPoints(rule, cards) ==
      if rule == 7 then KindSum(2, cards) + KindSum(3, cards) + KindSum(4, cards) + KindSum(5, cards)
      else if 2 <= rule <= 5 then KindSum(rule, cards)
      else 0
  {
    if cards != [] { KindsAdd(rule, cards[..|cards| - 1]); }
  }

  // ----- the points of a trick, counted

  function HowMany(cards: seq<Card>, p: Card -> bool): nat {
    if cards == [] then 0 else HowMany(cards[1..], p) + if p(cards[0]) then 1 else 0
  }

  /** What each rule alone gives for a trick: 1 for the trick; 1 for every heart; 5 for every queen; 2
      for every jack and king; 18 for the king of hearts; 10 for the seventh and the last trick. */
  function WorthAlone(rule: nat, round: nat, cards: seq<Card>): nat {
    match rule
    case 1 => 1
    case 2 => HowMany(cards, (c: Card) => c.suit == Hearts)
    case 3 => 5 * HowMany(cards, (c: Card) => c.rank == 12)
    case 4 => 2 * HowMany(cards, (c: Card) => c.rank == 11 || c.rank == 13)
    case 5 => 18 * HowMany(cards, (c: Card) => c == Card(Hearts, 13))
    case 6 => if round in {7, 13} then 10 else 0
    case _ => 0
  }

  lemma {:induction false} CardsCounted(rule: nat, round: nat, cards: seq<Card>)
    requires 2 <= rule <= 5
    ensures KindSum(rule, cards) == WorthAlone(rule, round, cards)
    decreases |cards|
  {
    if cards != [] {
      CardsCounted(rule, round, cards[1..]);
      KindSumFront(rule, cards);
    }
  }

  lemma {:induction false} KindSumFront(kind: nat, cards: seq<Card>)
    requires cards != []
    ensures KindSum(kind, cards) == KindPoints(kind, cards[0]) + KindSum(kind, cards[1..])
    decreases |cards|
  {
    var n := |cards| - 1;
    if n > 0 {
      KindSumFront(kind, cards[..n]);
      assert cards[..n][1..] == cards[1..][..n - 1];
    } else {
      assert cards[..0] == cards[1..] == [];
    }
  }

  /** A trick is worth what the rule counts in it; under the seventh rule all six count. */
  lemma TrickWorth(rule: nat, round: nat, cards: seq<Card>)
    requires 1 <= rule <= 7
    ensures TrickPoints(rule, round, cards) ==
      if rule < 7 then WorthAlone(rule, round, cards)
      else WorthAlone(1, round, cards) + WorthAlone(2, round, cards) + WorthAlone(3, round, cards)
           + WorthAlone(4, round, cards) + WorthAlone(5, round, cards) + WorthAlone(6, round, cards)
  {
    KindsAdd(rule, cards);
    CardsCounted(2, round, cards);
    CardsCounted(3, round, cards);
    CardsCounted(4, round, cards);
    CardsCounted(5, round, cards);
  }

  function RankToString(r: Rank): string {
    if r == 10 then "10"
    else if r < 10 then [("0123456789")[r]]
    else [("JQKA")[r - 11]]
  }

  function SuitChar(s: Suit): char {
    match s case Clubs => 'C' case Diamonds => 'D' case Hearts => 'H' case Spades => 'S'
  }

  function CardsToString(cards: seq<Card>): string {
    if cards == [] then ""
    else CardsToString(cards[..|cards| - 1]) + RankToString(cards[|cards| - 1].rank) + [SuitChar(cards[|cards| - 1].suit)]
  }

  function PlayerToChar(player: nat): char
    requires player < MAX_CLIENTS
  {
    ("NESW")[player]
  }

  function CharToPlayer(c: char): nat {
    if c == 'E' then 1 else if c == 'S' then 2 else if c == 'W' then 3 else 0
  }

  function NumberToString(n: nat): string {
    if n < 10 then [("0123456789")[n]] else NumberToString(n / 10) + [("0123456789")[n % 10]]
  }

  function TakenMessage(t: Trick): string
    requires t.taker < MAX_CLIENTS
  {
    "TAKEN" + NumberToString(t.round) + CardsToString(t.cards) + [PlayerToChar(t.taker)] + "\r\n"
  }

  /** The taker can be read back from the message, third from its end. */
  lemma TakerInMessage(t: Trick)
    requires t.taker < MAX_CLIENTS
    ensures |TakenMessage(t)| >= 3 && CharToPlayer(TakenMessage(t)[|TakenMessage(t)| - 3]) == t.taker
  {
    var head := "TAKEN" + NumberToString(t.round) + CardsToString(t.cards);
    var message := TakenMessage(t);
    assert message == head + [PlayerToChar(t.taker)] + "\r\n";
    assert message[|head|] == PlayerToChar(t.taker) && |message| == |head| + 3;
  }
}
