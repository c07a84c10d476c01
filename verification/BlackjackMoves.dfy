/**
 What a request moves: chips between a player's balance, bet and insurance, cards from the
 shoe to a hand, and the turn.
 */
module BlackjackMoves {
  import opened Sequences
  import opened BlackjackHand
  import opened BlackjackRules
  import opened BlackjackRounds

  // ---------- chips ----------

  /** The first seat of the name, unless that is the dealer's. */
  ghost predicate IsSeatOf(s: Table, name: string, i: nat) {
    0 < i < |s.players| && s.players[i].name == name && forall k :: 0 <= k < i ==> s.players[k].name != name
  }

  /** The player at turn doubles, with at most two cards and money for the same bet again. */
  ghost predicate Doubles(s: Table, r: Request, i: nat)
    requires i < |s.players|
  {
    var p := s.players[i];
    && r.DoubleDown? && 0 < i == s.current
    && p.hand.state == Active && |p.hand.cards| <= 2 && p.hand.bet <= p.balance
  }

  /** A player not insured yet takes insurance while the dealer shows an ace and hides the other card. */
  ghost predicate Insures(s: Table, r: Request, i: nat)
    requires i < |s.players|
  {
    var dealer := s.players[0].hand;
    && r.Insure? && IsSeatOf(s, r.name, i) && s.players[i].hand.insurance <= 0.0
    && dealer.cards != [] && dealer.cards[0].value == 1 && !dealer.revealBoth
  }

  /** What a request takes from the balance of seat `i` and puts on its bet. */
  ghost function ToBet(s: Table, r: Request, i: nat): real
    requires i < |s.players|
  {
    if r.Bet? && IsSeatOf(s, r.name, i) then r.amount as real
    else if Doubles(s, r, i) then s.players[i].hand.bet else 0.0
  }

  /** What it takes from there for insurance. */
  ghost function ToInsurance(s: Table, r: Request, i: nat): real
    requires i < |s.players|
  {
    if Insures(s, r, i) then r.amount as real else 0.0
  }

  /** Chips go from one place to another, and to no other seat. */
  ghost predicate ChipsMoved(p: Player, q: Player, bet: real, insurance: real) {
    && q.hand.bet == p.hand.bet + bet && q.hand.insurance == p.hand.insurance + insurance
    && q.balance == p.balance - bet - insurance
  }

  lemma FoundSeat(s: Table, name: string, i: nat)
    requires i < |s.players|
    ensures IsSeatOf(s, name, i) <==> 0 < i == FindPlayer(s.players, name)
  {
  }

  lemma SameChips(s: Table, i: nat)
    requires s.current < |s.players| && 0 < i < |s.players|
    ensures |StayTurn(s).table.players| == |s.players|
    ensures ChipsMoved(s.players[i], StayTurn(s).table.players[i], 0.0, 0.0)
  {
  }

  lemma CardMovesNoChips(s: Table, i: nat)
    requires s.current < |s.players| && s.shoe != [] && 0 < i < |s.players|
    ensures var t := WithCurrentCard(s);
      t.current == s.current && |t.players| == |s.players| && ChipsMoved(s.players[i], t.players[i], 0.0, 0.0)
  {
    hide StateOf;
  }

  lemma DoublingMovesChips(s: Table, i: nat)
    requires s.current < |s.players| && 0 < i < |s.players| && MayDouble(s)
    ensures var d := Doubled(s);
      && d.current == s.current && |d.players| == |s.players| && d.shoe == s.shoe
      && ChipsMoved(s.players[i], d.players[i], ToBet(s, DoubleDown, i), 0.0)
  {
  }

  lemma TurnMovesChips(s: Table, r: Request, i: nat)
    requires CanTurn(s, r) && 0 < i < |s.players|
    ensures |TurnOf(s, r).table.players| == |s.players|
    ensures ChipsMoved(s.players[i], TurnOf(s, r).table.players[i], ToBet(s, r, i), ToInsurance(s, r, i))
  {
    hide StayTurn, WithCurrentCard, Doubled, IsSeatOf;
    match r
    case Bet(name, _) => FoundSeat(s, name, i);
    case Insure(name, _) => FoundSeat(s, name, i);
    case Hit =>
      CardMovesNoChips(s, i);
      SameChips(WithCurrentCard(s), i);
    case DoubleDown =>
      if MayDouble(s) {
        DoublingMovesChips(s, i);
        CardMovesNoChips(Doubled(s), i);
        SameChips(WithCurrentCard(Doubled(s)), i);
      }
    case Stay => SameChips(s, i);
  }

  /**
   A request moves the amount bet, the bet doubled or the insurance from the balance of the player
   it is for, and nobody else's chips. If it finishes the round, the player takes all that is left.
   */
  lemma ChipsMove(s: Table, r: Request, i: nat)
    requires IsSound(s) && CanStep(s, r) && 0 < i < |s.players|
    ensures |Step(s, r).players| == |s.players| == |TurnOf(s, r).table.players|
    ensures var p, q := s.players[i], Step(s, r).players[i];
      if TurnOf(s, r).finishes then
        q.hand.bet == 0.0 == q.hand.insurance
        && q.balance == p.balance + p.hand.bet + p.hand.insurance + StepGain(s, r, i)
      else ChipsMoved(p, q, ToBet(s, r, i), ToInsurance(s, r, i))
  {
    hide TurnOf, DealtHand, CanFinish, CanDeal, DealerDeal, ToBet, ToInsurance, StepGain;
    StepLedger(s, r, i);
    TurnMovesChips(s, r, i);
    TurnIsReady(s, r);
    var t := TurnOf(s, r);
    if t.deals {
      DealtTurn(t);
      DealMovesNoChips(t.table, i);
    }
  }

  lemma DealMovesNoChips(s: Table, i: nat)
    requires CanDeal(s) && i < |s.players| && s.players[i].hand.insurance == 0.0
    ensures ChipsMoved(s.players[i], Deal(s).players[i], 0.0, 0.0)
  {
  }

  // ---------- cards ----------

  ghost predicate Draws(s: Table, r: Request)
    requires CanTurn(s, r)
  {
    r.Hit? || (r.DoubleDown? && Doubles(s, r, s.current))
  }

  lemma DrawnCards(s: Table, i: nat)
    requires s.current < |s.players| && s.shoe != [] && i < |s.players|
    ensures var t := StayTurn(WithCurrentCard(s)).table;
      |t.players| == |s.players| && t.players[i].hand.cards == WithCurrentCard(s).players[i].hand.cards
      && t.shoe == s.shoe[1..]
    ensures WithCurrentCard(s).shoe == s.shoe[1..] && |WithCurrentCard(s).players| == |s.players|
    ensures WithCurrentCard(s).players[i].hand.cards
         == s.players[i].hand.cards + if i == s.current then [s.shoe[0]] else []
  {
    hide StateOf;
  }

  lemma StayMovesNoCards(s: Table, i: nat)
    requires s.current < |s.players| && i < |s.players|
    ensures var t := StayTurn(s).table;
      t.shoe == s.shoe && |t.players| == |s.players| && t.players[i].hand.cards == s.players[i].hand.cards
  {
  }

  /**
   Before the deal or the dealer's play that may follow, a request moves at most the top card of the
   shoe, and that behind the cards of the hand at turn.
   */
  lemma CardsMove(s: Table, r: Request, i: nat)
    requires CanTurn(s, r) && i < |s.players|
    ensures Draws(s, r) ==> s.shoe != []
    ensures var t := TurnOf(s, r).table;
      && |t.players| == |s.players| && t.shoe == (if Draws(s, r) then s.shoe[1..] else s.shoe)
      && t.players[i].hand.cards
         == s.players[i].hand.cards + if Draws(s, r) && i == s.current then [s.shoe[0]] else []
  {
    hide StayTurn, WithCurrentCard;
    match r
    case Hit => DrawnCards(s, i);
    case DoubleDown =>
      if MayDouble(s) {
        assert Doubles(s, r, s.current);
        DrawnCards(Doubled(s), i);
      }
    case Stay => StayMovesNoCards(s, i);
    case _ =>
  }

  // ---------- the deal ----------

  /** The last of as many bets as there are players deals, nothing else does, and only a finished round opens bets. */
  lemma DealsIff(s: Table, r: Request)
    requires IsSound(s) && CanStep(s, r)
    ensures s.betting && !Step(s, r).betting <==> r.Bet? && s.betsMade + 1 == |s.players| - 1
    ensures !s.betting && Step(s, r).betting <==> TurnOf(s, r).finishes
  {
    hide StayTurn, DealtHand, CanFinish, CanDeal;
    SoundTurn(s);
    TurnIsReady(s, r);
    var t := TurnOf(s, r);
    if t.deals { DealtTurn(t); }
    if !r.Bet? { OnlyBetsDeal(s, r); }
  }

  lemma OnlyBetsDeal(s: Table, r: Request)
    requires CanTurn(s, r) && !r.Bet?
    ensures !TurnOf(s, r).deals
  {
    hide WithCurrentCard, Doubled;
  }

  /** The first, or the second, cards of the first `n` seats, in order. */
  function TurnOfCards(ps: seq<Player>, n: nat, turn: nat): seq<Card>
    requires n <= |ps|
  {
    if n == 0 then []
    else
      var cards := ps[n - 1].hand.cards;
      TurnOfCards(ps, n - 1, turn) + if turn < |cards| then [cards[turn]] else []
  }

  /**
   Cards are dealt off the shoe in two turns round the table: a first one to the dealer and to every
   player with a bet, and then a second one to the same.
   */
  lemma DealOrder(s: Table)
    requires CanDeal(s)
    ensures var ps := Deal(s).players;
      && |ps| == |s.players|
      && TurnOfCards(ps, |ps|, 0) + (TurnOfCards(ps, |ps|, 1) + Deal(s).shoe) == s.shoe
      && forall i :: 0 <= i < |ps| ==>
           |ps[i].hand.cards| == if i == 0 || s.players[i].hand.bet > 0.0 then 2 else 0
  {
    hide DealtHand, DealtPlayers, Deal, Takers, TurnOfCards;
    var ps, k, shoe := s.players, Takers(s.players, |s.players|), s.shoe;
    DealtSeats(s);
    EnoughToDeal(s);
    DealtInTurns(ps, shoe, |ps|);
    forall i | 0 <= i < |ps|
      ensures |Deal(s).players[i].hand.cards| == if i == 0 || ps[i].hand.bet > 0.0 then 2 else 0
    {
      DealtTwo(ps, shoe, i);
    }
    assert shoe[0..k] + (shoe[k..k + k] + shoe[2 * k..]) == shoe;
  }

  lemma EnoughToDeal(s: Table)
    requires CanDeal(s)
    ensures 2 * Takers(s.players, |s.players|) <= |s.shoe|
  {
  }

  lemma DealtTwo(ps: seq<Player>, shoe: seq<Card>, i: nat)
    requires i < |ps| && 2 * Takers(ps, |ps|) <= |shoe|
    ensures Takers(ps, i) <= Takers(ps, i + 1) <= Takers(ps, |ps|)
    ensures var cards := DealtPlayers(ps, shoe)[i].hand.cards;
      if i == 0 || ps[i].hand.bet > 0.0 then
        && Takers(ps, i + 1) == Takers(ps, i) + 1
        && cards == [shoe[Takers(ps, i)], shoe[Takers(ps, |ps|) + Takers(ps, i)]]
      else Takers(ps, i + 1) == Takers(ps, i) && cards == []
  {
    hide StateOf, Takers;
    TakersStep(ps, i);
  }

  lemma TakersStep(ps: seq<Player>, i: nat)
    requires i < |ps|
    ensures Takers(ps, i) <= Takers(ps, i + 1) <= Takers(ps, |ps|)
    ensures Takers(ps, i + 1) == Takers(ps, i) + if i == 0 || ps[i].hand.bet > 0.0 then 1 else 0
    ensures i == 0 || ps[i].hand.bet > 0.0 ==> Takers(ps, i) < Takers(ps, |ps|)
  {
    TakersGrow(ps, i + 1, |ps|);
  }

  lemma TurnSnoc(ps: seq<Player>, n: nat, turn: nat)
    requires 0 < n <= |ps|
    ensures var cards := ps[n - 1].hand.cards;
      TurnOfCards(ps, n, turn) == TurnOfCards(ps, n - 1, turn) + if turn < |cards| then [cards[turn]] else []
  {
  }

  lemma SliceSnoc(cards: seq<Card>, i: nat, j: nat)
    requires i <= j < |cards|
    ensures cards[i..j] + [cards[j]] == cards[i..j + 1]
  {
  }

  lemma {:induction false} DealtInTurns(ps: seq<Player>, shoe: seq<Card>, n: nat)
    requires n <= |ps| && 2 * Takers(ps, |ps|) <= |shoe|
    ensures Takers(ps, n) <= Takers(ps, |ps|)
    ensures var qs, all, k := DealtPlayers(ps, shoe), Takers(ps, |ps|), Takers(ps, n);
      |qs| == |ps| && TurnOfCards(qs, n, 0) == shoe[0..k] && TurnOfCards(qs, n, 1) == shoe[all..all + k]
    decreases n
  {
    hide DealtHand, DealtPlayers, Takers, TurnOfCards;
    var qs, all := DealtPlayers(ps, shoe), Takers(ps, |ps|);
    AsManySeats(ps, shoe);
    if n == 0 {
      NoneTake(ps);
      NoTurn(qs);
    } else {
      var k := Takers(ps, n - 1);
      DealtInTurns(ps, shoe, n - 1);
      DealtTwo(ps, shoe, n - 1);
      TurnSnoc(qs, n, 0);
      TurnSnoc(qs, n, 1);
      if n == 1 || ps[n - 1].hand.bet > 0.0 {
        SliceSnoc(shoe, 0, k);
        SliceSnoc(shoe, all, all + k);
      }
    }
  }

  lemma AsManySeats(ps: seq<Player>, shoe: seq<Card>)
    requires 2 * Takers(ps, |ps|) <= |shoe|
    ensures |DealtPlayers(ps, shoe)| == |ps|
  {
  }

  lemma NoTurn(ps: seq<Player>)
    ensures TurnOfCards(ps, 0, 0) == [] == TurnOfCards(ps, 0, 1)
  {
  }

  lemma NoneTake(ps: seq<Player>)
    ensures Takers(ps, 0) == 0
  {
  }

  // ---------- the turn ----------

  /** The turn stays with a player who is in, or goes to the next one who is, or the round is over. */
  lemma TurnGoesOn(s: Table, r: Request)
    requires IsSound(s) && !s.betting && CanStep(s, r) && !r.Bet? && IsIn(s.players[s.current])
    ensures var t := Step(s, r);
      && |t.players| == |s.players|
      && (t.betting || (s.current <= t.current < |t.players| && IsIn(t.players[t.current])))
      && (t.betting || forall j :: s.current <= j < t.current ==> !IsIn(t.players[j]))
      && (r.Stay? ==> t.betting || s.current < t.current)
  {
    hide StayTurn, WithCurrentCard, Doubled, CanFinish, DealerDeal;
    StepIsSound(s, r);
    SoundTurn(s);
    DealsIff(s, r);
    match r
    case Bet(_, _) =>
    case Insure(_, _) =>
    case Hit =>
      DrawnTurn(s);
      StayPasses(WithCurrentCard(s));
    case DoubleDown =>
      if MayDouble(s) {
        DoubledTurn(s);
        DrawnTurn(Doubled(s));
        StayPasses(WithCurrentCard(Doubled(s)));
      }
    case Stay => StayPasses(s);
  }

  lemma StayPasses(s: Table)
    requires 0 < s.current < |s.players|
    ensures var r := StayTurn(s); var t := r.table;
      && !r.deals && |t.players| == |s.players| && t.betting == s.betting
      && (!r.finishes ==> s.current < t.current < |t.players| && IsIn(t.players[t.current])
                          && forall j :: s.current <= j < t.current ==> !IsIn(t.players[j]))
  {
  }

  lemma DrawnTurn(s: Table)
    requires s.current < |s.players| && s.shoe != [] && s.players[s.current].hand.bet > 0.0
    ensures var t := WithCurrentCard(s);
      && t.current == s.current && |t.players| == |s.players| && t.betting == s.betting
      && var state := t.players[t.current].hand.state;
      state == BlackJack || state == Busted || IsIn(t.players[t.current])
  {
  }

  lemma DoubledTurn(s: Table)
    requires s.current < |s.players| && s.players[s.current].hand.bet > 0.0
    ensures var d := Doubled(s);
      && d.current == s.current && |d.players| == |s.players| && d.shoe == s.shoe && d.betting == s.betting
      && d.players[d.current].hand.bet > 0.0
  {
  }
}
