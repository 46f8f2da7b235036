/** The server's handling of one deal, over its own fields. Every method takes the step that
    `BlackLadyRules` describes. */
module BlackLadyServer {
  import opened BlackLadyRules
  import opened BlackLady

  /** Erasing takes out the first occurrence. */
  lemma {:induction false} EraseAt(hand: seq<Card>, at: nat, card: Card)
    requires at < |hand| && hand[at] == card && forall i :: 0 <= i < at ==> hand[i] != card
    ensures Erase(hand, card) == hand[..at] + hand[at + 1..]
  {
    if at > 0 {
      EraseAt(hand[1..], at - 1, card);
      assert hand[..at] == [hand[0]] + hand[1..][..at - 1] && hand[1..][at..] == hand[at + 1..];
    }
  }

  class Server {
    var rule: nat
    var startPlayer: nat
    var round: nat
    var current: nat
    var poked: bool
    var table: seq<Card>
    var inHand: seq<seq<Card>>
    var taken: seq<Trick>
    var score: seq<nat>
    var total: seq<nat>

    function Contents(): Deal
      reads this
    {
      Deal(rule, startPlayer, round, current, poked, table, inHand, taken, score, total)
    }

    constructor ()
      ensures total == [0, 0, 0, 0] && score == [0, 0, 0, 0]
    {
      rule, startPlayer, round, current, poked := 1, 0, 1, 0, false;
      table, inHand, taken := [], [[], [], [], []], [];
      score, total := [0, 0, 0, 0], [0, 0, 0, 0];
    }

    /** The cards of a game definition are dealt; the points of earlier deals stay in `total`. */
    method MakeDeal(r: nat, start: char, cards: seq<seq<Card>>)
      requires score == [0, 0, 0, 0] && |total| == 4
      requires 1 <= r <= 7 && |cards| == 4 && forall h :: h in cards ==> |h| == ROUNDS
      requires multiset(cards[0]) + multiset(cards[1]) + multiset(cards[2]) + multiset(cards[3]) == Deck()
      modifies this
      ensures FullDeal(Contents()) && inHand == cards && rule == r && startPlayer == CharToPlayer(start)
      ensures total == old(total)
    {
      hide Deck;
      round := 1;
      rule, startPlayer := r, CharToPlayer(start);
      table, inHand, taken := [], [], [];
      current := CharToPlayer(start);
      poked := false;
      for i := 0 to 4
        invariant inHand == cards[..i]
        invariant table == [] && taken == [] && round == 1 && rule == r && !poked
        invariant startPlayer == current == CharToPlayer(start)
        invariant score == [0, 0, 0, 0] && total == old(total)
      {
        inHand := inHand + [cards[i]];
      }
      assert cards[..4] == cards;
    }

    method ClientHasCard(card: Card, client: nat) returns (r: bool)
      requires client < |inHand|
      ensures r <==> card in inHand[client]
    {
      for i := 0 to |inHand[client]|
        invariant card !in inHand[client][..i]
      {
        if inHand[client][i] == card { return true; }
      }
      return false;
    }

    method IsMoveLegal(card: Card, player: nat) returns (r: bool)
      requires player < |inHand|
      ensures r <==> MoveLegal(Contents(), card, player)
    {
      if table == [] { return true; }
      var suit := table[0].suit;
      if card.suit == suit { return true; }
      for i := 0 to |inHand[player]|
        invariant forall j :: 0 <= j < i ==> inHand[player][j].suit != suit
      {
        if inHand[player][i].suit == suit { return false; }
      }
      return true;
    }

    /** Gives the player what one of the rules 2 to 5 counts on the table. */
    method AwardCards(kind: nat, player: nat)
      requires player < |score| == |total|
      modifies this`score, this`total
      ensures score == old(score)[player := old(score)[player] + KindSum(kind, table)]
      ensures total == old(total)[player := old(total)[player] + KindSum(kind, table)]
    {
      for i := 0 to |table|
        invariant score == old(score)[player := old(score)[player] + KindSum(kind, table[..i])]
        invariant total == old(total)[player := old(total)[player] + KindSum(kind, table[..i])]
      {
        assert table[..i + 1][..i] == table[..i];
        var points := KindPoints(kind, table[i]);
        score := score[player := score[player] + points];
        total := total[player := total[player] + points];
      }
      assert table[..|table|] == table;
    }

    /** Gives the player all points of the table. */
    method AwardTrick(player: nat)
      requires 1 <= rule <= 7 && player < |score| == |total|
      modifies this`score, this`total
      ensures score == old(score)[player := old(score)[player] + TrickPoints(rule, round, table)]
      ensures total == old(total)[player := old(total)[player] + TrickPoints(rule, round, table)]
    {
      hide CardsPoints, KindSum;
      KindsAdd(rule, table);
      if rule == 1 || rule == 7 {
        score := score[player := score[player] + 1];
        total := total[player := total[player] + 1];
      }
      if rule == 2 || rule == 7 { AwardCards(2, player); }
      if rule == 3 || rule == 7 { AwardCards(3, player); }
      if rule == 4 || rule == 7 { AwardCards(4, player); }
      if rule == 5 || rule == 7 { AwardCards(5, player); }
      if rule == 6 || rule == 7 {
        if round == 7 || round == 13 {
          score := score[player := score[player] + 10];
          total := total[player := total[player] + 10];
        }
      }
    }

    /** The taker of the full table gets its points. */
    method CalculateScore() returns (message: string, ghost taker: nat)
      requires 1 <= rule <= 7 && |table| == MAX_CLIENTS && |score| == |total| == MAX_CLIENTS
      modifies this`score, this`total
      ensures taker == (current + MaxIndex(table, MAX_CLIENTS)) % MAX_CLIENTS
      ensures message == TakenMessage(Trick(round, table, taker))
      ensures score == old(score)[taker := old(score)[taker] + TrickPoints(rule, round, table)]
      ensures total == old(total)[taker := old(total)[taker] + TrickPoints(rule, round, table)]
    {
      hide TrickPoints, CardsToString, NumberToString;
      var maxCard, maxIndex := table[0], 0;
      for i := 1 to |table|
        invariant maxIndex == MaxIndex(table, i) && maxCard == table[maxIndex]
      {
        if Higher(table[i], maxCard) { maxCard, maxIndex := table[i], i; }
      }
      var player := (current + maxIndex) % MAX_CLIENTS;
      AwardTrick(player);
      message := "TAKEN" + NumberToString(round) + CardsToString(table) + [PlayerToChar(player)] + "\r\n";
      taker := player;
    }

    /** Takes the card from the hand of the player. */
    method EraseCard(client: nat, card: Card)
      requires client < |inHand| && card in inHand[client]
      modifies this`inHand
      ensures inHand == old(inHand)[client := Erase(old(inHand)[client], card)]
    {
      var hand := inHand[client];
      var it := 0;
      while hand[it] != card
        invariant it < |hand| && forall i :: 0 <= i < it ==> hand[i] != card
        decreases |hand| - it
      {
        it := it + 1;
      }
      EraseAt(hand, it, card);
      inHand := inHand[client := hand[..it] + hand[it + 1..]];
    }

    /** A full trick is given to its taker, who is read from the message. */
    method GiveTrick()
      requires Playable(Contents()) && 1 <= rule <= 7 && |table| == MAX_CLIENTS
      modifies this
      ensures Contents() == Close(old(Contents()))
    {
      hide TrickPoints, TakenMessage, Erase, MaxIndex, CardsPoints, CharToPlayer, RoundPoints;
      var message, taker := CalculateScore();
      TakerInMessage(Trick(round, table, taker));
      var player := CharToPlayer(message[|message| - 3]);
      taken := taken + [Trick(round, table, player)];
      round := round + 1;
      table := [];
      current := player;
    }

    /** An accepted card is played; a full trick is given to its taker. */
    method MakeMove(client: nat, card: Card)
      requires Playable(Contents()) && 1 <= rule <= 7 && client == current && card in inHand[client]
      requires |table| < MAX_CLIENTS
      modifies this
      ensures Contents() == Move(old(Contents()), card)
    {
      hide Erase, Close;
      table := table + [card];
      EraseCard(client, card);
      current := (client + 1) % MAX_CLIENTS;
      if |table| == MAX_CLIENTS { GiveTrick(); }
    }

    /** A client has sent a card. The answer is the number of a WRONG message, if any. */
    method ReceiveTrick(player: nat, sentRound: nat, card: Card, ghost before: seq<nat>) returns (wrong: seq<nat>)
      requires Inv(Contents(), before)
      modifies this
      ensures Contents() == Next(old(Contents()), Sent(player, sentRound, card))
      ensures Inv(Contents(), before)
      ensures wrong == if old(Accepts(Contents(), Sent(player, sentRound, card))) then []
                       else [if old(round) < ROUNDS then old(round) else ROUNDS]
    {
      hide InvMid, Next, Move, MoveLegal;
      NextKeeps(Contents(), Sent(player, sentRound, card), before);
      InvShape(Contents(), before);
      ReceivedStep(Contents(), player, sentRound, card);
      if player == current && poked {
        var has, legal := false, false;
        if sentRound == round {
          has := ClientHasCard(card, current);
          if has { legal := IsMoveLegal(card, current); }
        }
        if legal {
          MakeMove(player, card);
          wrong := [];
        } else {
          wrong := [if ROUNDS < round then ROUNDS else round];
        }
        poked := false;
        return;
      }
      wrong := [if ROUNDS < round then ROUNDS else round];
    }

    /** The points are reported; those of the deal are then set back to zero. */
    method PrepareScoreOrTotal(totals: bool) returns (report: seq<(char, nat)>)
      requires |score| == |total| == MAX_CLIENTS
      modifies this`score
      ensures |report| == MAX_CLIENTS
      ensures forall i :: 0 <= i < MAX_CLIENTS ==>
        report[i] == (PlayerToChar(i), if totals then old(total[i]) else old(score[i]))
      ensures score == if totals then old(score) else [0, 0, 0, 0]
    {
      report := [];
      for i := 0 to MAX_CLIENTS
        invariant |report| == i
        invariant forall j :: 0 <= j < i ==> report[j] == (PlayerToChar(j), if totals then total[j] else score[j])
      {
        report := report + [(PlayerToChar(i), if totals then total[i] else score[i])];
      }
      if !totals {
        for i := 0 to MAX_CLIENTS
          invariant |score| == MAX_CLIENTS && forall j :: 0 <= j < i ==> score[j] == 0
        {
          score := score[i := 0];
        }
      }
    }
  }

  lemma ReceivedStep(d: Deal, player: nat, round: nat, card: Card)
    requires Shape(d)
    ensures Playable(d)
    ensures var e := Sent(player, round, card);
      Next(d, e) == if Accepts(d, e) then Move(d, card).(poked := false)
                    else if player == d.current && d.poked then d.(poked := false) else d
  {
  }
}
