/**
 What every run of requests keeps: the invariant of a table, each player's money, all the
 cards; what the dealer's play ends in, and what the results of a round mean.
 */
module BlackjackRounds {
  import opened Sequences
  import opened BlackjackHand
  import opened BlackjackRules

  // ---------- the invariant ----------

  /** A hand's state goes with its cards; only an active hand can be held. */
  predicate StateFits(h: Hand) {
    if h.cards == [] then h.state == Empty
    else h.state == StateOf(h.cards) || (h.state == Held && StateOf(h.cards) == Active)
  }

  ghost predicate IsProperHand(h: Hand) {
    AreCards(h.cards) && StateFits(h)
  }

  /** While bets are open nobody is insured, and nobody can be: the dealer hides no card. */
  ghost predicate BetsOpen(s: Table)
    requires s.players != []
  {
    && s.current == 0 && (s.betsMade < |s.players| - 1 || |s.players| == 1)
    && (forall i :: 0 < i < |s.players| ==> s.players[i].hand.insurance == 0.0)
    && s.players[0].hand.revealBoth
  }

  /** While a round is played no further bet deals again, and the dealer has two cards, one of them shown. */
  ghost predicate RoundOpen(s: Table)
    requires s.players != []
  {
    var dealer := s.players[0].hand;
    && 0 < s.current && s.betsMade >= |s.players| - 1 && !dealer.revealBoth
    && |dealer.cards| == 2 && dealer.state == StateOf(dealer.cards)
  }

  ghost predicate IsSound(s: Table) {
    && s.current < |s.players| && s.betsMade >= 0 && AreCards(s.shoe)
    && (forall i :: 0 <= i < |s.players| ==> IsProperHand(s.players[i].hand))
    && if s.betting then BetsOpen(s) else RoundOpen(s)
  }

  /** A table as it is made, with seats taken but no bets placed. */
  ghost predicate IsFresh(s: Table) {
    && s.players != [] && s.current == 0 && s.betsMade == 0 && s.betting && AreCards(s.shoe)
    && forall i :: 0 <= i < |s.players| ==> s.players[i].hand == NEW_HAND
  }

  lemma FreshIsSound(s: Table)
    requires IsFresh(s)
    ensures IsSound(s)
  {
  }

  // ---------- what a request keeps before a round is dealt or finished ----------

  /** A player's money: what is at hand and what is on the table. */
  function Worth(p: Player): real {
    p.balance + p.hand.bet + p.hand.insurance
  }

  ghost predicate SeatKept(p: Player, q: Player) {
    IsProperHand(q.hand) && Worth(q) == Worth(p) && q.name == p.name
  }

  /** Nobody's money changes, hands stay proper and the dealer's is not touched in a round. */
  ghost predicate Kept(s: Table, t: Table) {
    && s.players != [] && |t.players| == |s.players| && t.current < |t.players| && AreCards(t.shoe)
    && t.betting == s.betting && t.betsMade >= s.betsMade
    && t.players[0].hand.revealBoth == s.players[0].hand.revealBoth
    && (!s.betting ==> t.players[0].hand == s.players[0].hand)
    && forall i :: 0 <= i < |s.players| ==> SeatKept(s.players[i], t.players[i])
  }

  lemma KeptTwice(s: Table, t: Table, u: Table)
    requires Kept(s, t) && Kept(t, u)
    ensures Kept(s, u)
  {
    forall i | 0 <= i < |s.players| ensures SeatKept(s.players[i], u.players[i]) {
      assert SeatKept(s.players[i], t.players[i]) && SeatKept(t.players[i], u.players[i]);
    }
  }

  lemma OneSeatKept(s: Table, i: nat, q: Player, shoe: seq<Card>, betsMade: int)
    requires IsSound(s) && i < |s.players| && SeatKept(s.players[i], q) && AreCards(shoe) && betsMade >= s.betsMade
    requires i == 0 ==> s.betting && q.hand.revealBoth == s.players[0].hand.revealBoth
    ensures Kept(s, s.(players := s.players[i := q], shoe := shoe, betsMade := betsMade))
  {
  }

  lemma BetKeeps(s: Table, idx: nat, amount: int)
    requires IsSound(s) && idx < |s.players|
    ensures Kept(s, AfterBet(s, idx, amount))
    ensures forall i :: 0 <= i < |s.players| ==>
              AfterBet(s, idx, amount).players[i].hand.insurance == s.players[i].hand.insurance
  {
    if idx > 0 { OneSeatKept(s, idx, AfterBet(s, idx, amount).players[idx], s.shoe, s.betsMade + 1); }
  }

  lemma InsureKeeps(s: Table, idx: nat, amount: int)
    requires IsSound(s) && 0 < idx < |s.players|
    ensures Kept(s, AfterInsure(s, idx, amount)) && AfterInsure(s, idx, amount).betsMade == s.betsMade
    ensures s.betting ==> !MayInsure(s, idx)
  {
    OneSeatKept(s, idx, AfterInsure(s, idx, amount).players[idx], s.shoe, s.betsMade);
  }

  lemma CardKeeps(s: Table)
    requires IsSound(s) && s.shoe != []
    ensures Kept(s, WithCurrentCard(s)) && IsSound(WithCurrentCard(s)) && WithCurrentCard(s).current == s.current
  {
    hide StateOf;
    var t := WithCurrentCard(s);
    var h := s.players[s.current].hand;
    assert AreCards(h.cards + [s.shoe[0]]);
    OneSeatKept(s, s.current, t.players[s.current], s.shoe[1..], s.betsMade);
    KeptIsSound(s, t);
  }

  lemma DoublingKeeps(s: Table)
    requires IsSound(s) && s.current > 0
    ensures Kept(s, Doubled(s)) && IsSound(Doubled(s)) && Doubled(s).current == s.current && Doubled(s).shoe == s.shoe
  {
    OneSeatKept(s, s.current, Doubled(s).players[s.current], s.shoe, s.betsMade);
    KeptIsSound(s, Doubled(s));
  }

  /** Whatever is kept leaves the table sound, as long as bets are made one by one. */
  lemma KeptIsSound(s: Table, t: Table)
    requires IsSound(s) && Kept(s, t) && (t.current == 0 <==> s.betting)
    requires s.betting ==> t.betsMade == s.betsMade
    requires s.betting ==>
      forall i :: 0 < i < |s.players| ==> t.players[i].hand.insurance == s.players[i].hand.insurance
    ensures IsSound(t)
  {
    forall i | 0 <= i < |t.players| ensures IsProperHand(t.players[i].hand)
    {
      assert SeatKept(s.players[i], t.players[i]);
    }
  }

  lemma StayKeeps(s: Table)
    requires IsSound(s)
    ensures var t := StayTurn(s);
      && Kept(s, t.table) && !t.deals && t.table.betsMade == s.betsMade
      && (if t.finishes then s.current > 0 && t.table.current == 0 else IsSound(t.table))
  {
    if s.current > 0 {
      var h := AfterHold(s);
      OneSeatKept(s, s.current, h.players[s.current], s.shoe, s.betsMade);
      assert s.players[s.current := s.players[s.current]] == s.players;
      assert h == s.(players := s.players[s.current := h.players[s.current]], shoe := s.shoe, betsMade := s.betsMade);
      var t := NextTurn(h).table;
      assert Kept(s, t);
      if t.current > 0 { KeptIsSound(s, t); }
    }
  }

  /** What holds of the table when the deal, the dealer's play or neither follows. */
  ghost predicate IsReady(s: Table, t: Turn) {
    && Kept(s, t.table) && !(t.deals && t.finishes)
    && (t.deals ==> s.betting && |s.players| > 1 && t.table.betsMade == |s.players| - 1
                    && forall i :: 0 < i < |s.players| ==> t.table.players[i].hand.insurance == 0.0)
    && (t.finishes ==> !s.betting && t.table.current == 0)
    && (!t.deals && !t.finishes ==> IsSound(t.table))
  }

  lemma BetIsReady(s: Table, r: Request)
    requires IsSound(s) && CanTurn(s, r) && r.Bet?
    ensures IsReady(s, TurnOf(s, r))
  {
    var t := AfterBet(s, FindPlayer(s.players, r.name), r.amount);
    BetKeeps(s, FindPlayer(s.players, r.name), r.amount);
    forall i | 0 <= i < |t.players| ensures IsProperHand(t.players[i].hand)
    {
      assert SeatKept(s.players[i], t.players[i]);
    }
  }

  lemma InsureIsReady(s: Table, r: Request)
    requires IsSound(s) && CanTurn(s, r) && r.Insure?
    ensures IsReady(s, TurnOf(s, r))
  {
    var idx := FindPlayer(s.players, r.name);
    if idx > 0 && MayInsure(s, idx) {
      InsureKeeps(s, idx, r.amount);
      KeptIsSound(s, AfterInsure(s, idx, r.amount));
    }
  }

  lemma DrawIsReady(s: Table, r: Request)
    requires IsSound(s) && CanTurn(s, r) && !r.Bet? && !r.Insure?
    ensures IsReady(s, TurnOf(s, r))
  {
    hide WithCurrentCard, Doubled, StayTurn, IsSound;
    match r
    case Hit =>
      SoundTurn(s);
      CardKeeps(s);
      StayKeeps(WithCurrentCard(s));
      SoundTurn(WithCurrentCard(s));
      KeptTurn(s, WithCurrentCard(s));
    case DoubleDown =>
      SoundTurn(s);
      if MayDouble(s) {
        DoublingKeeps(s);
        SoundTurn(Doubled(s));
        CardKeeps(Doubled(s));
        KeptTwice(s, Doubled(s), WithCurrentCard(Doubled(s)));
        StayKeeps(WithCurrentCard(Doubled(s)));
        SoundTurn(WithCurrentCard(Doubled(s)));
        KeptTurn(s, WithCurrentCard(Doubled(s)));
      }
    case Stay =>
      SoundTurn(s);
      StayKeeps(s);
  }

  lemma SoundTurn(s: Table)
    requires IsSound(s)
    ensures s.betting <==> s.current == 0
    ensures s.current < |s.players| && Kept(s, s)
  {
  }

  lemma KeptTurn(s: Table, t: Table)
    requires Kept(s, t) && Kept(t, StayTurn(t).table)
    ensures Kept(s, StayTurn(t).table)
  {
    KeptTwice(s, t, StayTurn(t).table);
  }

  lemma TurnIsReady(s: Table, r: Request)
    requires IsSound(s) && CanTurn(s, r)
    ensures IsReady(s, TurnOf(s, r))
  {
    hide IsReady, TurnOf, IsSound;
    if r.Bet? { BetIsReady(s, r); } else if r.Insure? { InsureIsReady(s, r); } else { DrawIsReady(s, r); }
  }

  lemma DealtHandIsProper(ps: seq<Player>, shoe: seq<Card>, i: nat)
    requires i < |ps| && 2 * Takers(ps, |ps|) <= |shoe| && AreCards(shoe)
    ensures var h := DealtHand(ps, shoe, i);
      && IsProperHand(h) && h.insurance == 0.0 && h.bet == ps[i].hand.bet
      && (i == 0 ==> |h.cards| == 2 && h.state == StateOf(h.cards) && !h.revealBoth)
  {
    hide StateOf;
    TakersGrow(ps, i, |ps|);
    if Takes(ps, i) {
      var cards := [shoe[Takers(ps, i)]] + [shoe[Takers(ps, |ps|) + Takers(ps, i)]];
      assert |cards| == 2 && AreCards(cards);
    }
  }

  lemma DealIsSound(s: Table)
    requires CanDeal(s) && AreCards(s.shoe) && |s.players| > 1 && s.betsMade >= |s.players| - 1
    ensures IsSound(Deal(s)) && !Deal(s).betting
  {
    hide DealtHand, IsProperHand;
    forall i | 0 <= i < |s.players|
      ensures IsProperHand(DealtHand(s.players, s.shoe, i))
    {
      DealtHandIsProper(s.players, s.shoe, i);
    }
    DealtHandIsProper(s.players, s.shoe, 0);
  }

  // ---------- the dealer's play ----------

  /** The dealer is done. */
  ghost predicate IsStanding(h: Hand) {
    17 <= Best(NumericValues(h.cards)) <= 21
  }

  /** Each card behind the first `from` was drawn to a hand whose best value was below 17. */
  ghost predicate DrawnBelow17(cards: seq<Card>, from: nat) {
    forall n: nat, best :: from <= n < |cards| && IsBest(cards[..n], best) ==> best < 17
  }

  lemma DrawIff(cards: seq<Card>, best: int)
    requires IsBest(cards, best)
    ensures MustDraw(NumericValues(cards)) <==> best < 17
  {
    hide IsBest, NumericValues;
    BestIsBest(cards, best);
  }

  lemma OneMoreDrawn(cards: seq<Card>, from: nat)
    requires from < |cards| && MustDraw(NumericValues(cards[..from])) && DrawnBelow17(cards, from + 1)
    ensures DrawnBelow17(cards, from)
  {
    hide MustDraw, IsBest, NumericValues;
    forall n: nat, best | from <= n < |cards| && IsBest(cards[..n], best) ensures best < 17 {
      if n == from { DrawIff(cards[..n], best); }
    }
  }

  /**
   From two cards the dealer ends busted or between 17 and 21 and has drawn no card that did not have
   to be drawn; the cards drawn come off the shoe in order, and the value compared with the
   players' is that of the final hand.
   */
  lemma {:induction false} DealerEnds(hand: Hand, shoe: seq<Card>, value: Values)
    requires |hand.cards| >= 2 && AreCards(hand.cards) && AreCards(shoe) && hand.state == StateOf(hand.cards) != Busted
    requires value == NumericValues(hand.cards) && ShoeSuffices(hand, shoe, value)
    ensures var play := DealerPlay(hand, shoe, value);
      && (play.hand.state == Busted || IsStanding(play.hand)) && DrawnBelow17(play.hand.cards, |hand.cards|)
      && (play.hand.state != Busted ==> play.value == NumericValues(play.hand.cards))
      && play.hand.state == StateOf(play.hand.cards) && |play.hand.cards| >= |hand.cards|
      && play.hand.cards + play.shoe == hand.cards + shoe
      && play.hand.bet == hand.bet && play.hand.insurance == hand.insurance && play.hand.revealBoth == hand.revealBoth
    decreases |shoe|
  {
    hide DrawnBelow17;
    var play := DealerPlay(hand, shoe, value);
    NoneDrawn(play.hand.cards);
    if MustDraw(value) {
      var h := WithCard(hand, shoe[0]);
      Associative(hand.cards, [shoe[0]], shoe[1..]);
      assert [shoe[0]] + shoe[1..] == shoe;
      if h.state != Busted { DealerEnds(h, shoe[1..], NumericValues(h.cards)); }
      FrontIs(play.hand.cards, play.shoe, hand.cards, shoe);
      OneMoreDrawn(play.hand.cards, |hand.cards|);
    }
  }

  lemma NoneDrawn(cards: seq<Card>)
    ensures DrawnBelow17(cards, |cards|)
  {
  }

  lemma FrontIs(a: seq<Card>, b: seq<Card>, c: seq<Card>, d: seq<Card>)
    requires a + b == c + d && |c| <= |a|
    ensures a[..|c|] == c
  {
    assert a[..|c|] == (a + b)[..|c|] == (c + d)[..|c|];
  }

  lemma TwoCardsAreNotBusted(cards: seq<Card>)
    requires |cards| == 2
    ensures StateOf(cards) != Busted
  {
    LowOfTwo(cards);
  }

  /** Seventeen cards are always enough; each card drawn takes one off what is needed. */
  lemma {:induction false} SeventeenCardsSuffice(hand: Hand, shoe: seq<Card>)
    requires AreCards(shoe) && |shoe| >= 17 - Low(hand.cards)
    ensures ShoeSuffices(hand, shoe, NumericValues(hand.cards))
    decreases |shoe|
  {
    if MustDraw(NumericValues(hand.cards)) {
      LowSnoc(hand.cards, shoe[0]);
      SeventeenCardsSuffice(WithCard(hand, shoe[0]), shoe[1..]);
    }
  }

  // ---------- one request keeps the invariant ----------

  lemma SettledIsProper(p: Player, play: Play)
    requires IsProperHand(p.hand)
    ensures var q := Settled(p, play);
      IsProperHand(q.hand) && q.hand.bet == 0.0 && q.hand.insurance == 0.0 && q.name == p.name
  {
  }

  /** The dealer's hand and the shoe after the dealer's play, from what a sound round leads up to. */
  lemma DealersPlayEnds(s: Table)
    requires s.players != [] && CanFinish(s) && AreCards(s.shoe) && IsProperHand(s.players[0].hand)
    requires |s.players[0].hand.cards| == 2 && s.players[0].hand.state == StateOf(s.players[0].hand.cards)
    ensures var play := DealersPlay(s);
      && (play.hand.state == Busted || IsStanding(play.hand)) && DrawnBelow17(play.hand.cards, 2)
      && (play.hand.state != Busted ==> play.value == NumericValues(play.hand.cards))
      && play.hand.state == StateOf(play.hand.cards) && |play.hand.cards| >= 2 && play.hand.revealBoth
      && play.hand.cards + play.shoe == s.players[0].hand.cards + s.shoe
      && AreCards(play.hand.cards) && AreCards(play.shoe)
  {
    var hand := s.players[0].hand.(revealBoth := true);
    var value := NumericValues(hand.cards);
    RevealingChangesNothing(s.players[0].hand, s.shoe, value);
    TwoCardsAreNotBusted(hand.cards);
    DealerEnds(hand, s.shoe, value);
    PartsAreCards(DealersPlay(s).hand.cards, DealersPlay(s).shoe, hand.cards + s.shoe);
  }

  lemma PartsAreCards(a: seq<Card>, b: seq<Card>, all: seq<Card>)
    requires a + b == all && AreCards(all)
    ensures AreCards(a) && AreCards(b)
  {
    assert forall k :: 0 <= k < |a| ==> a[k] == all[k];
    assert forall k :: 0 <= k < |b| ==> b[k] == all[|a| + k];
  }

  lemma FinishIsSound(s: Table)
    requires s.players != [] && CanFinish(s) && AreCards(s.shoe) && !s.betting
    requires forall i :: 0 <= i < |s.players| ==> IsProperHand(s.players[i].hand)
    requires |s.players[0].hand.cards| == 2 && s.players[0].hand.state == StateOf(s.players[0].hand.cards)
    ensures IsSound(DealerDeal(s)) && DealerDeal(s).betting
  {
    hide StateOf, DealersPlay, CanFinish, Settled;
    DealersPlayEnds(s);
    var play := DealersPlay(s);
    forall i | 0 < i < |s.players|
      ensures IsProperHand(Settled(s.players[i], play).hand) && Settled(s.players[i], play).hand.insurance == 0.0
    {
      SettledIsProper(s.players[i], play);
    }
  }

  /** Every request that can be carried out leaves a sound table. */
  lemma StepIsSound(s: Table, r: Request)
    requires IsSound(s) && CanStep(s, r)
    ensures IsSound(Step(s, r)) && |Step(s, r).players| == |s.players|
  {
    hide TurnOf, StateOf, CanDeal, CanFinish, Deal, DealerDeal;
    TurnIsReady(s, r);
    var t := TurnOf(s, r);
    forall i | 0 <= i < |s.players| ensures IsProperHand(t.table.players[i].hand) {
      assert SeatKept(s.players[i], t.table.players[i]);
    }
    if t.deals { DealIsSound(t.table); } else if t.finishes { FinishIsSound(t.table); }
    FollowedSeats(t);
  }

  lemma FollowedSeats(t: Turn)
    requires CanFollow(t)
    ensures |Follow(t).players| == |t.table.players|
  {
  }

  /** The dealer never plays right behind a deal: the turn is with some seat. */
  lemma DealtTurn(t: Turn)
    requires CanFollow(t) && t.deals
    ensures Follow(t) == Deal(t.table)
  {
  }

  /** The same number of seats, and at most one card less in the shoe. */
  predicate AtMostOneDrawn(s: Table, t: Table) {
    |t.players| == |s.players| && |t.shoe| >= |s.shoe| - 1
  }

  lemma StayDrawsNone(s: Table)
    requires s.current < |s.players|
    ensures StayTurn(s).table.shoe == s.shoe && |StayTurn(s).table.players| == |s.players|
  {
  }

  lemma CardDrawsOne(s: Table)
    requires s.current < |s.players| && s.shoe != []
    ensures var t := WithCurrentCard(s);
      |t.shoe| == |s.shoe| - 1 && |t.players| == |s.players| && t.current == s.current
  {
  }

  lemma TurnDrawsOne(s: Table, r: Request)
    requires CanTurn(s, r)
    ensures AtMostOneDrawn(s, TurnOf(s, r).table)
  {
    hide WithCurrentCard, StayTurn;
    match r
    case Hit =>
      CardDrawsOne(s);
      StayDrawsNone(WithCurrentCard(s));
    case DoubleDown =>
      if MayDouble(s) {
        CardDrawsOne(Doubled(s));
        StayDrawsNone(WithCurrentCard(Doubled(s)));
      }
    case Stay => StayDrawsNone(s);
    case _ =>
  }

  /**
   With eighteen cards more than two for each seat, every request, with a seated player's name in a
   bet, can be carried out.
   */
  lemma EnoughCardsStep(s: Table, r: Request)
    requires IsSound(s) && |s.shoe| >= 2 * |s.players| + 18
    requires r.Bet? ==> FindPlayer(s.players, r.name) >= 0
    ensures CanStep(s, r)
  {
    hide TurnOf, IsReady, StateOf, ShoeSuffices;
    TurnIsReady(s, r);
    TurnDrawsOne(s, r);
    ReadyTable(s, TurnOf(s, r));
    var t := TurnOf(s, r).table;
    SeventeenCardsSuffice(t.players[0].hand, t.shoe);
  }

  lemma ReadyTable(s: Table, t: Turn)
    requires IsReady(s, t)
    ensures t.table.players != [] && AreCards(t.table.shoe)
  {
  }

  // ---------- money ----------

  /** What a round brings a player beyond the bet and the insurance put down. */
  function Gain(p: Player, play: Play): real {
    (match ResultOf(p.hand, play.hand, play.value)
     case PlayerWin => p.hand.bet
     case ComputerWin => -p.hand.bet
     case PlayerBlackJack => 1.5 * p.hand.bet
     case Push => 0.0
     case NoResult => 0.0)
    + (if p.hand.insurance > 0.0 && play.hand.state == BlackJack then 2.0 * p.hand.insurance else -p.hand.insurance)
  }

  lemma SettledWorth(p: Player, play: Play)
    ensures Worth(Settled(p, play)) == Worth(p) + Gain(p, play)
    ensures Settled(p, play).balance == Worth(Settled(p, play))
  {
  }

  /** What a request brings the player at a seat: nothing unless it finishes the round. */
  function StepGain(s: Table, r: Request, i: nat): real
    requires CanStep(s, r) && 0 < i < |TurnOf(s, r).table.players|
  {
    var t := TurnOf(s, r);
    if t.finishes then Gain(t.table.players[i], DealersPlay(t.table)) else 0.0
  }

  /** A request moves a player's money by the gain of the round it finishes, and otherwise not at all. */
  lemma StepLedger(s: Table, r: Request, i: nat)
    requires IsSound(s) && CanStep(s, r) && 0 < i < |s.players|
    ensures |TurnOf(s, r).table.players| == |s.players| == |Step(s, r).players|
    ensures Worth(Step(s, r).players[i]) == Worth(s.players[i]) + StepGain(s, r, i)
    ensures TurnOf(s, r).finishes ==> Step(s, r).players[i].hand.bet == 0.0 == Step(s, r).players[i].hand.insurance
  {
    hide TurnOf, DealersPlay, CanFinish, DealtHand, Settled, Gain;
    TurnIsReady(s, r);
    var t := TurnOf(s, r);
    assert SeatKept(s.players[i], t.table.players[i]);
    if t.deals {
      DealtWorth(t.table.players, t.table.shoe, i);
    } else if t.finishes {
      SettledWorth(t.table.players[i], DealersPlay(t.table));
      SettledIsProper(t.table.players[i], DealersPlay(t.table));
    }
  }

  lemma DealtWorth(ps: seq<Player>, shoe: seq<Card>, i: nat)
    requires i < |ps| && 2 * Takers(ps, |ps|) <= |shoe| && ps[i].hand.insurance == 0.0
    ensures Worth(ps[i].(hand := DealtHand(ps, shoe, i))) == Worth(ps[i])
  {
  }

  // ---------- runs ----------

  predicate CanRun(s: Table, rs: seq<Request>)
    decreases |rs|
  {
    rs == [] || (CanStep(s, rs[0]) && CanRun(Step(s, rs[0]), rs[1..]))
  }

  function Run(s: Table, rs: seq<Request>): Table
    requires CanRun(s, rs)
    decreases |rs|
  {
    if rs == [] then s else Run(Step(s, rs[0]), rs[1..])
  }

  ghost function RunGain(s: Table, rs: seq<Request>, i: nat): real
    requires IsSound(s) && CanRun(s, rs) && 0 < i < |s.players|
    decreases |rs|
  {
    if rs == [] then 0.0
    else
      StepIsSound(s, rs[0]);
      StepLedger(s, rs[0], i);
      StepGain(s, rs[0], i) + RunGain(Step(s, rs[0]), rs[1..], i)
  }

  /**
   Over any run a table stays sound, and a player's money changes by the gains of the rounds finished
   and by nothing else.
   */
  lemma {:induction false} RunLedger(s: Table, rs: seq<Request>, i: nat)
    requires IsSound(s) && CanRun(s, rs) && 0 < i < |s.players|
    ensures IsSound(Run(s, rs)) && |Run(s, rs).players| == |s.players|
    ensures Worth(Run(s, rs).players[i]) == Worth(s.players[i]) + RunGain(s, rs, i)
    decreases |rs|
  {
    hide Step, CanStep, IsSound, StepGain, Worth;
    if rs != [] {
      StepIsSound(s, rs[0]);
      StepLedger(s, rs[0], i);
      RunLedger(Step(s, rs[0]), rs[1..], i);
    }
  }

  // ---------- the meaning of results ----------

  /** Two cards that make twenty-one. */
  predicate IsNatural(cards: seq<Card>, best: int) {
    |cards| == 2 && best == 21
  }

  /** The rules of the game in terms of the best values of both hands. */
  function Verdict(bet: real, cards: seq<Card>, best: int, dealerCards: seq<Card>, dealerBest: int): HandResult {
    if bet == 0.0 then NoResult
    else if best > 21 then ComputerWin
    else if IsNatural(cards, best) then (if IsNatural(dealerCards, dealerBest) then Push else PlayerBlackJack)
    else if dealerBest > 21 then PlayerWin
    else if IsNatural(dealerCards, dealerBest) || best < dealerBest then ComputerWin
    else if best == dealerBest then Push
    else PlayerWin
  }

  lemma StateByBest(h: Hand)
    requires StateFits(h)
    ensures h.state == Busted <==> Best(NumericValues(h.cards)) > 21
    ensures h.state == BlackJack <==> IsNatural(h.cards, Best(NumericValues(h.cards)))
  {
    if |h.cards| == 2 { LowOfTwo(h.cards); }
  }

  /**
   Each result of a round is what the rules say for the best values of the player's and of the
   dealer's final hand.
   */
  lemma ResultIsVerdict(s: Table, i: nat, best: int, dealerBest: int)
    requires s.players != [] && CanFinish(s) && AreCards(s.shoe) && 0 < i < |s.players|
    requires IsProperHand(s.players[0].hand) && IsProperHand(s.players[i].hand)
    requires |s.players[0].hand.cards| == 2 && s.players[0].hand.state == StateOf(s.players[0].hand.cards)
    requires IsBest(s.players[i].hand.cards, best) && IsBest(DealersPlay(s).hand.cards, dealerBest)
    ensures var h := s.players[i].hand; var play := DealersPlay(s);
      DealerDeal(s).players[i].hand.result == Verdict(h.bet, h.cards, best, play.hand.cards, dealerBest)
    ensures dealerBest > 21 || 17 <= dealerBest <= 21
  {
    hide StateOf, DealersPlay, NumericValues, CanFinish;
    var play := DealersPlay(s);
    DealersPlayEnds(s);
    BestIsBest(s.players[i].hand.cards, best);
    BestIsBest(play.hand.cards, dealerBest);
    StateByBest(s.players[i].hand);
    StateByBest(play.hand);
  }

  // ---------- the order of turns ----------

  /** A player with a bet whose hand is neither held nor busted nor a black jack. */
  predicate IsIn(p: Player) {
    p.hand.bet > 0.0 && p.hand.state == Active
  }

  /** In a round nobody in front of the player at turn is still in. */
  ghost predicate IsInOrder(s: Table) {
    !s.betting ==> forall j :: 0 < j < s.current && j < |s.players| ==> !IsIn(s.players[j])
  }

  ghost predicate NobodyIsIn(s: Table) {
    forall j :: 0 < j < |s.players| ==> !IsIn(s.players[j])
  }

  lemma StayIsInOrder(s: Table)
    requires s.current < |s.players| && IsInOrder(s) && (s.betting <==> s.current == 0)
    ensures var t := StayTurn(s); !t.deals && if t.finishes then NobodyIsIn(t.table) else IsInOrder(t.table)
  {
    if s.current > 0 {
      var ps := AfterHold(s).players;
      assert forall j :: 0 < j <= s.current ==> !IsIn(ps[j]);
    }
  }

  lemma DrawIsInOrder(s: Table)
    requires s.current < |s.players| && s.shoe != [] && IsInOrder(s)
    ensures IsInOrder(WithCurrentCard(s)) && IsInOrder(Doubled(s))
    ensures var t, d := WithCurrentCard(s), Doubled(s);
      && t.current == d.current == s.current && |t.players| == |d.players| == |s.players|
      && t.betting == d.betting == s.betting && d.shoe == s.shoe
  {
    hide StateOf;
  }

  lemma DealIsInOrder(s: Table)
    requires CanDeal(s)
    ensures IsInOrder(Deal(s))
  {
  }

  /**
   Turns go round in order, and the dealer plays only when no player is left in, as long as bets are
   placed before the deal.
   */
  lemma TurnsAreInOrder(s: Table, r: Request)
    requires IsSound(s) && IsInOrder(s) && CanStep(s, r) && (r.Bet? ==> s.betting)
    ensures IsInOrder(Step(s, r))
    ensures TurnOf(s, r).finishes ==> NobodyIsIn(TurnOf(s, r).table)
  {
    hide StayTurn, CanDeal, CanFinish, Deal, DealerDeal, WithCurrentCard, Doubled, IsInOrder;
    SoundTurn(s);
    TurnIsReady(s, r);
    var t := TurnOf(s, r);
    match r {
      case Bet(_, _) =>
        if t.deals {
          DealtTurn(t);
          DealIsInOrder(t.table);
        } else {
          BettingIsInOrder(t.table);
        }
      case Insure(_, _) => InsureIsInOrder(s, r);
      case Hit =>
        DrawIsInOrder(s);
        StayIsInOrder(WithCurrentCard(s));
      case DoubleDown =>
        if MayDouble(s) {
          DrawIsInOrder(s);
          DrawIsInOrder(Doubled(s));
          StayIsInOrder(WithCurrentCard(Doubled(s)));
        }
      case Stay => StayIsInOrder(s);
    }
    if t.finishes { FinishOpensBets(t.table); }
  }

  /**
   A bet in mid-round keeps the order exactly if it does not bring back a seat that was passed over
   with an active hand.
   */
  lemma LateBetKeepsOrderIff(s: Table, name: string, amount: int)
    requires IsSound(s) && IsInOrder(s) && !s.betting && CanStep(s, Bet(name, amount))
    ensures var idx := FindPlayer(s.players, name);
      IsInOrder(Step(s, Bet(name, amount)))
      <==> !(0 < idx < s.current && s.players[idx].hand.state == Active
             && s.players[idx].hand.bet + amount as real > 0.0)
  {
    var idx := FindPlayer(s.players, name);
    var t := AfterBet(s, idx, amount);
    assert Step(s, Bet(name, amount)) == t;
    if 0 < idx < s.current && s.players[idx].hand.state == Active && s.players[idx].hand.bet + amount as real > 0.0 {
      assert IsIn(t.players[idx]);
    }
  }

  /**
   Such a run, from a table as it is made. Three players are dealt eleven each; while the
   first one is at turn the second withdraws the bet, so that the turn passes by to the
   third, and then places it again.
   */
  lemma LateBetExample(rest: seq<Card>)
    requires AreCards(rest)
    ensures var s := LateBetTable(rest);
      && IsFresh(s) && CanRun(s, LATE_BETS) && !IsInOrder(Run(s, LATE_BETS))
  {
    hide CanStep, Step, CanRun, Run;
    var s := LateBetTable(rest);
    var s1, s2 := AfterBet(s, 1, 10), AfterBet(AfterBet(s, 1, 10), 2, 10);
    var d := LateBetDealt(rest);
    LateBetsDeal(rest);
    LateBetPasses(rest);
    LateBetReturns(rest);
    RunThree(s, s1, s2, d, LATE_BETS);
    var p := LateBetPassed(rest);
    RunThree(d, AfterBet(d, 2, -10), p, AfterBet(p, 2, 10), LATE_BETS[3..]);
    NoRequests(AfterBet(p, 2, 10));
    assert LATE_BETS[3..][3..] == [];
  }

  const LATE_BETS: seq<Request> := [Bet("x", 10), Bet("a", 10), Bet("z", 10), Bet("a", -10), Stay, Bet("a", 10)]

  lemma NoRequests(s: Table)
    ensures CanRun(s, []) && Run(s, []) == s
  {
  }

  lemma RunOne(s: Table, rs: seq<Request>, k: nat)
    requires k < |rs| && CanStep(s, rs[k])
    ensures CanRun(s, rs[k..]) <==> CanRun(Step(s, rs[k]), rs[k + 1..])
    ensures CanRun(s, rs[k..]) ==> Run(s, rs[k..]) == Run(Step(s, rs[k]), rs[k + 1..])
  {
    hide CanStep, Step;
    assert rs[k..][1..] == rs[k + 1..] && rs[k..][0] == rs[k];
  }

  lemma RunThree(s: Table, s1: Table, s2: Table, s3: Table, rs: seq<Request>)
    requires |rs| >= 3 && CanStep(s, rs[0]) && Step(s, rs[0]) == s1 && CanStep(s1, rs[1]) && Step(s1, rs[1]) == s2
    requires CanStep(s2, rs[2]) && Step(s2, rs[2]) == s3
    ensures CanRun(s, rs) <==> CanRun(s3, rs[3..])
    ensures CanRun(s, rs) ==> Run(s, rs) == Run(s3, rs[3..])
  {
    hide CanStep, Step, CanRun, Run;
    RunOne(s, rs, 0);
    RunOne(s1, rs, 1);
    RunOne(s2, rs, 2);
    assert rs[0..] == rs;
  }

  function Waiting(name: string): Player {
    Player(name, NEW_HAND, 1000.0)
  }

  /** Eleven in two cards and a bet of ten. */
  function Eleven(name: string, suit: nat, bet: real, state: HandState): Player {
    Player(name, Hand(true, [Card(suit, 5), Card(suit, 6)], bet, 0.0, state, NoResult), 1000.0 - bet)
  }

  function LateBetTable(rest: seq<Card>): (s: Table)
    ensures |s.players| == 4
  {
    Table([Waiting("DEALER"), Waiting("x"), Waiting("a"), Waiting("z")],
          seq(8, k requires 0 <= k < 8 => Card(k % 4, if k < 4 then 5 else 6)) + rest, 0, 0, true)
  }

  function LateBetDealer(): Player {
    var p := Eleven("DEALER", 0, 0.0, Active);
    p.(hand := p.hand.(revealBoth := false))
  }

  function LateBetDealt(rest: seq<Card>): (s: Table)
    ensures |s.players| == 4
  {
    Table([LateBetDealer(), Eleven("x", 1, 10.0, Active), Eleven("a", 2, 10.0, Active), Eleven("z", 3, 10.0, Active)],
          rest, 1, 3, false)
  }

  function LateBetPassed(rest: seq<Card>): (s: Table)
    ensures |s.players| == 4
  {
    Table([LateBetDealer(), Eleven("x", 1, 10.0, Held), Eleven("a", 2, 0.0, Active), Eleven("z", 3, 10.0, Active)],
          rest, 3, 4, false)
  }

  ghost predicate SeatedThus(ps: seq<Player>) {
    |ps| == 4 && ps[0].name == "DEALER" && ps[1].name == "x" && ps[2].name == "a" && ps[3].name == "z"
  }

  lemma FindSeats(ps: seq<Player>)
    requires SeatedThus(ps)
    ensures FindPlayer(ps, "x") == 1 && FindPlayer(ps, "a") == 2 && FindPlayer(ps, "z") == 3
  {
    assert "DEALER"[0] == 'D' && "x"[0] == 'x' && "a"[0] == 'a' && "z"[0] == 'z';
  }

  lemma ElevenIsActive(suit: nat)
    ensures StateOf([Card(suit, 5), Card(suit, 6)]) == Active
    ensures [Card(suit, 5)] + [Card(suit, 6)] == [Card(suit, 5), Card(suit, 6)]
  {
    LowOfTwo([Card(suit, 5), Card(suit, 6)]);
  }

  /** The three bets, the last of which deals. */
  lemma LateBetsDeal(rest: seq<Card>)
    requires AreCards(rest)
    ensures var s := LateBetTable(rest);
      && IsFresh(s)
      && var s1, s2 := AfterBet(s, 1, 10), AfterBet(AfterBet(s, 1, 10), 2, 10);
      && CanStep(s, Bet("x", 10)) && Step(s, Bet("x", 10)) == s1
      && CanStep(s1, Bet("a", 10)) && Step(s1, Bet("a", 10)) == s2
      && CanStep(s2, Bet("z", 10)) && Step(s2, Bet("z", 10)) == LateBetDealt(rest)
  {
    hide Deal, CanDeal;
    var s := LateBetTable(rest);
    var s1 := AfterBet(s, 1, 10);
    var s2 := AfterBet(s1, 2, 10);
    FindSeats(s.players);
    FindSeats(s1.players);
    FindSeats(s2.players);
    LateDeal(rest, AfterBet(s2, 3, 10));
  }

  lemma AllTake(ps: seq<Player>)
    requires |ps| == 4 && Takes(ps, 1) && Takes(ps, 2) && Takes(ps, 3)
    ensures forall i :: 0 <= i <= 4 ==> Takers(ps, i) == i
  {
    assert Takers(ps, 1) == 1 && Takers(ps, 2) == 2 && Takers(ps, 3) == 3 && Takers(ps, 4) == 4;
  }

  lemma ElevenDealt(ps: seq<Player>, rest: seq<Card>, i: nat)
    requires |ps| == 4 && i < 4 && Takes(ps, i) && forall k :: 0 <= k <= 4 ==> Takers(ps, k) == k
    requires ps[i].hand == NEW_HAND.(bet := ps[i].hand.bet)
    ensures 8 <= |LateBetTable(rest).shoe|
    ensures var h := DealtHand(ps, LateBetTable(rest).shoe, i);
      h == Hand(i != 0, [Card(i, 5), Card(i, 6)], ps[i].hand.bet, 0.0, Active, NoResult)
  {
    hide StateOf;
    ElevenIsActive(i);
  }

  lemma LateDeal(rest: seq<Card>, t: Table)
    requires t == AfterBet(AfterBet(AfterBet(LateBetTable(rest), 1, 10), 2, 10), 3, 10)
    ensures CanDeal(t) && Deal(t) == LateBetDealt(rest)
  {
    hide DealtHand, StateOf, LateBetTable, Takers;
    var ps := t.players;
    LateSeats(rest, t);
    AllTake(ps);
    forall i | 0 <= i < 4 ensures DealtPlayers(ps, t.shoe)[i] == LateBetDealt(rest).players[i] {
      ElevenDealt(ps, rest, i);
    }
  }

  lemma LateSeats(rest: seq<Card>, t: Table)
    requires t == AfterBet(AfterBet(AfterBet(LateBetTable(rest), 1, 10), 2, 10), 3, 10)
    ensures t.shoe == LateBetTable(rest).shoe && |t.shoe| == 8 + |rest| && t.shoe[8..] == rest
    ensures t.betsMade == 3 && t.betting && |t.players| == 4 && t.players[0] == Waiting("DEALER")
    ensures forall i :: 1 <= i < 4 ==>
      t.players[i] == Player(["", "x", "a", "z"][i], NEW_HAND.(bet := 10.0), 990.0)
  {
  }

  /** The second player's bet is withdrawn, and the first player stays. */
  lemma LateBetPasses(rest: seq<Card>)
    ensures var d := LateBetDealt(rest);
      && CanStep(d, Bet("a", -10)) && Step(d, Bet("a", -10)) == AfterBet(d, 2, -10)
      && CanStep(AfterBet(d, 2, -10), Stay) && Step(AfterBet(d, 2, -10), Stay) == LateBetPassed(rest)
  {
    var d := LateBetDealt(rest);
    FindSeats(d.players);
    var e := AfterBet(d, 2, -10);
    var h := AfterHold(e);
    assert NextPlaying(h.players, 2) == 3;
  }

  lemma LateBetReturns(rest: seq<Card>)
    ensures var p, t := LateBetPassed(rest), AfterBet(LateBetPassed(rest), 2, 10);
      && CanStep(p, Bet("a", 10)) && Step(p, Bet("a", 10)) == t && !IsInOrder(t)
  {
    FindSeats(LateBetPassed(rest).players);
    assert IsIn(AfterBet(LateBetPassed(rest), 2, 10).players[2]);
  }

  lemma BettingIsInOrder(s: Table)
    requires s.betting
    ensures IsInOrder(s)
  {
  }

  lemma InsureIsInOrder(s: Table, r: Request)
    requires r.Insure? && CanTurn(s, r) && IsInOrder(s)
    ensures IsInOrder(TurnOf(s, r).table)
  {
  }

  lemma FinishOpensBets(s: Table)
    requires CanFinish(s)
    ensures IsInOrder(DealerDeal(s))
  {
  }

  // ---------- the end of a round ----------

  /** No hand of a player has got a result. */
  ghost predicate NothingSettled(s: Table, t: Table) {
    && |t.players| == |s.players|
    && forall i :: 0 < i < |s.players| ==>
         t.players[i].hand.result == s.players[i].hand.result || t.players[i].hand.result == NoResult
  }

  /**
   While the seats stay the same no bet ever finishes a round, whatever cards it deals: it
   opens no bets and settles no hand, and when nobody is left to play, the turn stays with the
   last seat until some player stays or draws.
   */
  lemma BetNeverFinishes(s: Table, r: Request)
    requires IsSound(s) && CanStep(s, r) && r.Bet?
    ensures var t := Step(s, r);
      && (t.betting ==> s.betting) && NothingSettled(s, t) && t.current < |t.players|
      && (s.betting && !t.betting ==> t.current == |t.players| - 1 || IsIn(t.players[t.current]))
  {
    hide DealtPlayers, StateOf;
    var t := TurnOf(s, r);
    TurnIsReady(s, r);
    if t.deals {
      DealtTurn(t);
      DealtSeats(t.table);
      forall i | 0 <= i < |s.players| ensures Deal(t.table).players[i].hand.result == NoResult {
        DealtResult(t.table.players, t.table.shoe, i);
      }
    }
  }

  lemma DealtResult(ps: seq<Player>, shoe: seq<Card>, i: nat)
    requires i < |ps| && 2 * Takers(ps, |ps|) <= |shoe|
    ensures DealtPlayers(ps, shoe)[i].hand.result == NoResult
  {
  }

  /** Then the next request to stay makes the dealer play. */
  lemma StayFinishesWhenNobodyIsIn(s: Table)
    requires IsSound(s) && !s.betting && forall i :: 0 < i < |s.players| ==> !IsIn(s.players[i])
    ensures TurnOf(s, Stay).finishes
  {
  }

  /** A table with one player and a shoe from which a bet deals that player a black jack. */
  function BlackJackExample(rest: seq<Card>): Table {
    Table([Player("DEALER", NEW_HAND, 1000.0), Player("p", NEW_HAND, 1000.0)],
          [Card(0, 2), Card(0, 1), Card(0, 3), Card(0, 13)] + rest, 0, 0, true)
  }

  /**
   The only player has a black jack at once, yet the round is not over: the dealer has not played and
   nothing is settled.
   */
  lemma BlackJackDoesNotFinish(rest: seq<Card>)
    requires AreCards(rest)
    ensures var s, r := BlackJackExample(rest), Bet("p", 10);
      && IsFresh(s) && CanStep(s, r)
      && var t := Step(s, r);
      && t.players[1].hand.state == BlackJack && !IsIn(t.players[1])
      && t.players[1].hand.bet == 10.0 && t.players[1].hand.result == NoResult && !t.betting && t.current == 1
  {
    var s := BlackJackExample(rest);
    var t := AfterBet(s, 1, 10);
    assert FindPlayer(s.players, "p") == 1;
    assert Takers(t.players, 1) == 1 && Takers(t.players, 2) == 2;
    var cards := [Card(0, 1)] + [Card(0, 13)];
    LowOfTwo(cards);
    assert cards[0].value == ACE;
    assert DealtHand(t.players, t.shoe, 1).cards == cards;
  }

  // ---------- cards ----------

  /** How often a card is among some. */
  function Count(cards: seq<Card>, c: Card): nat {
    multiset(cards)[c]
  }

  lemma CountConcat(a: seq<Card>, b: seq<Card>, c: Card)
    ensures Count(a + b, c) == Count(a, c) + Count(b, c)
  {
  }

  /** How often a card is in the hands of the first `n` seats. */
  function HandCount(ps: seq<Player>, n: nat, c: Card): nat
    requires n <= |ps|
  {
    if n == 0 then 0 else HandCount(ps, n - 1, c) + Count(ps[n - 1].hand.cards, c)
  }

  /** How often a card is on the table, in the shoe or in a hand. */
  function TableCount(s: Table, c: Card): nat {
    Count(s.shoe, c) + HandCount(s.players, |s.players|, c)
  }

  lemma {:induction false} SameHandCount(ps: seq<Player>, qs: seq<Player>, n: nat, c: Card)
    requires n <= |ps| && n <= |qs| && forall k :: 0 <= k < n ==> qs[k].hand.cards == ps[k].hand.cards
    ensures HandCount(qs, n, c) == HandCount(ps, n, c)
    decreases n
  {
    if n > 0 { SameHandCount(ps, qs, n - 1, c); }
  }

  lemma {:induction false} OneHandChanged(ps: seq<Player>, qs: seq<Player>, i: nat, n: nat, c: Card)
    requires i < n <= |ps| == |qs| && forall k :: 0 <= k < n && k != i ==> qs[k].hand.cards == ps[k].hand.cards
    ensures HandCount(qs, n, c) + Count(ps[i].hand.cards, c) == HandCount(ps, n, c) + Count(qs[i].hand.cards, c)
    decreases n
  {
    hide Count;
    if i < n - 1 { OneHandChanged(ps, qs, i, n - 1, c); } else { SameHandCount(ps, qs, i, c); }
  }

  /** The same cards in the shoe and in every hand. */
  ghost predicate SameCards(s: Table, t: Table) {
    && |t.players| == |s.players| && t.shoe == s.shoe
    && forall k :: 0 <= k < |s.players| ==> t.players[k].hand.cards == s.players[k].hand.cards
  }

  lemma SameCardsCount(s: Table, t: Table, c: Card)
    requires SameCards(s, t)
    ensures TableCount(t, c) == TableCount(s, c)
  {
    SameHandCount(s.players, t.players, |s.players|, c);
  }

  lemma DrawnCardCount(s: Table, c: Card)
    requires s.current < |s.players| && s.shoe != []
    ensures TableCount(WithCurrentCard(s), c) == TableCount(s, c)
  {
    hide Count, StateOf;
    OneHandChanged(s.players, WithCurrentCard(s).players, s.current, |s.players|, c);
    CountConcat([s.shoe[0]], s.shoe[1..], c);
    assert [s.shoe[0]] + s.shoe[1..] == s.shoe;
    CountConcat(s.players[s.current].hand.cards, [s.shoe[0]], c);
  }

  lemma StayKeepsCards(s: Table, c: Card)
    requires s.current < |s.players|
    ensures TableCount(StayTurn(s).table, c) == TableCount(s, c)
  {
    SameCardsCount(s, StayTurn(s).table, c);
  }

  lemma TurnKeepsCards(s: Table, r: Request, c: Card)
    requires CanTurn(s, r)
    ensures TableCount(TurnOf(s, r).table, c) == TableCount(s, c)
  {
    hide TableCount, StayTurn, WithCurrentCard;
    match r
    case Bet(name, amount) => SameCardsCount(s, BetTurn(AfterBet(s, FindPlayer(s.players, name), amount)).table, c);
    case Insure(name, amount) =>
      var idx := FindPlayer(s.players, name);
      if idx > 0 { SameCardsCount(s, AfterInsure(s, idx, amount), c); }
    case Hit =>
      DrawnCardCount(s, c);
      DrawnSeats(s);
      StayKeepsCards(WithCurrentCard(s), c);
    case DoubleDown =>
      if MayDouble(s) {
        var d := Doubled(s);
        SameCardsCount(s, d, c);
        DrawnCardCount(d, c);
        DrawnSeats(d);
        StayKeepsCards(WithCurrentCard(d), c);
      }
    case Stay => StayKeepsCards(s, c);
  }

  lemma DrawnSeats(s: Table)
    requires s.current < |s.players| && s.shoe != []
    ensures WithCurrentCard(s).current == s.current && |WithCurrentCard(s).players| == |s.players|
  {
  }

  lemma {:induction false} DealtCount(ps: seq<Player>, shoe: seq<Card>, n: nat, c: Card)
    requires n <= |ps| && 2 * Takers(ps, |ps|) <= |shoe|
    ensures Takers(ps, n) <= Takers(ps, |ps|)
    ensures HandCount(DealtPlayers(ps, shoe), n, c)
         == Count(shoe[..Takers(ps, n)], c) + Count(shoe[Takers(ps, |ps|)..Takers(ps, |ps|) + Takers(ps, n)], c)
    decreases n
  {
    hide Count, DealtHand;
    TakersGrow(ps, n, |ps|);
    if n > 0 {
      DealtCount(ps, shoe, n - 1, c);
      DealtOne(ps, shoe, n - 1, c);
    } else {
      CountNone(c);
      assert shoe[..0] == [] && shoe[Takers(ps, |ps|)..Takers(ps, |ps|) + 0] == [];
    }
  }

  lemma CountNone(c: Card)
    ensures Count([], c) == 0
  {
  }

  lemma DealtOne(ps: seq<Player>, shoe: seq<Card>, i: nat, c: Card)
    requires i < |ps| && 2 * Takers(ps, |ps|) <= |shoe|
    ensures Takers(ps, i) <= Takers(ps, i + 1) <= Takers(ps, |ps|)
    ensures var total, k, next := Takers(ps, |ps|), Takers(ps, i), Takers(ps, i + 1);
      Count(shoe[..k], c) + Count(shoe[total..total + k], c) + Count(DealtHand(ps, shoe, i).cards, c)
      == Count(shoe[..next], c) + Count(shoe[total..total + next], c)
  {
    hide Count, StateOf;
    TakersGrow(ps, i + 1, |ps|);
    var total, k := Takers(ps, |ps|), Takers(ps, i);
    if Takes(ps, i) {
      SnocCount(shoe, 0, k, c);
      SnocCount(shoe, total, total + k, c);
      CountConcat([shoe[k]], [shoe[total + k]], c);
    } else {
      CountNone(c);
    }
  }

  lemma SnocCount(cards: seq<Card>, i: nat, j: nat, c: Card)
    requires i <= j < |cards|
    ensures Count(cards[i..j + 1], c) == Count(cards[i..j], c) + Count([cards[j]], c)
    ensures cards[0..j] == cards[..j]
  {
    assert cards[i..j + 1] == cards[i..j] + [cards[j]];
  }

  /** What a deal puts away: the hands of the round before. */
  function Discards(s: Table, r: Request, c: Card): nat
    requires CanTurn(s, r)
  {
    var t := TurnOf(s, r);
    if t.deals then HandCount(t.table.players, |t.table.players|, c) else 0
  }

  lemma ThreeParts(shoe: seq<Card>, k: nat, c: Card)
    requires 2 * k <= |shoe|
    ensures Count(shoe, c) == Count(shoe[..k], c) + Count(shoe[k..k + k], c) + Count(shoe[2 * k..], c)
  {
    hide Count;
    assert shoe == shoe[..k] + (shoe[k..k + k] + shoe[2 * k..]);
    CountConcat(shoe[..k], shoe[k..k + k] + shoe[2 * k..], c);
    CountConcat(shoe[k..k + k], shoe[2 * k..], c);
  }

  lemma DealKeepsCards(s: Table, c: Card)
    requires CanDeal(s)
    ensures TableCount(Deal(s), c) + HandCount(s.players, |s.players|, c) == TableCount(s, c)
  {
    hide Count, DealtPlayers, HandCount, Deal;
    DealtCount(s.players, s.shoe, |s.players|, c);
    ThreeParts(s.shoe, Takers(s.players, |s.players|), c);
    DealtSeats(s);
  }

  lemma DealtSeats(s: Table)
    requires CanDeal(s)
    ensures |DealtPlayers(s.players, s.shoe)| == |s.players| && Deal(s).players == DealtPlayers(s.players, s.shoe)
    ensures Deal(s).shoe == s.shoe[2 * Takers(s.players, |s.players|)..]
  {
  }

  lemma FinishKeepsCards(s: Table, c: Card)
    requires s.players != [] && CanFinish(s) && AreCards(s.shoe) && IsProperHand(s.players[0].hand)
    requires |s.players[0].hand.cards| == 2 && s.players[0].hand.state == StateOf(s.players[0].hand.cards)
    ensures TableCount(DealerDeal(s), c) == TableCount(s, c)
  {
    hide DealersPlay, CanFinish, StateOf, Count;
    var play := DealersPlay(s);
    DealersPlayEnds(s);
    OneHandChanged(s.players, DealerDeal(s).players, 0, |s.players|, c);
    CountConcat(play.hand.cards, play.shoe, c);
    CountConcat(s.players[0].hand.cards, s.shoe, c);
  }

  /** A request moves cards about, but none is lost or made: they are in the shoe, in the hands or put away. */
  lemma StepKeepsCards(s: Table, r: Request, c: Card)
    requires IsSound(s) && CanStep(s, r)
    ensures TableCount(Step(s, r), c) + Discards(s, r, c) == TableCount(s, c)
  {
    hide TurnOf, TableCount, HandCount, Deal, DealerDeal, CanFinish, CanDeal, StateOf;
    TurnIsReady(s, r);
    TurnKeepsCards(s, r, c);
    var t := TurnOf(s, r);
    assert SeatKept(s.players[0], t.table.players[0]);
    if t.deals {
      DealtTurn(t);
      DealKeepsCards(t.table, c);
    } else if t.finishes {
      FinishKeepsCards(t.table, c);
    }
  }

  ghost function RunDiscards(s: Table, rs: seq<Request>, c: Card): nat
    requires CanRun(s, rs)
    decreases |rs|
  {
    if rs == [] then 0 else Discards(s, rs[0], c) + RunDiscards(Step(s, rs[0]), rs[1..], c)
  }

  /** Over any run each card is in the shoe, in the hands or put away as often as it was there at first. */
  lemma {:induction false} RunKeepsCards(s: Table, rs: seq<Request>, c: Card)
    requires IsSound(s) && CanRun(s, rs)
    ensures TableCount(Run(s, rs), c) + RunDiscards(s, rs, c) == TableCount(s, c)
    decreases |rs|
  {
    hide Step, CanStep, IsSound, TableCount, Discards;
    if rs != [] {
      StepIsSound(s, rs[0]);
      StepKeepsCards(s, rs[0], c);
      RunKeepsCards(Step(s, rs[0]), rs[1..], c);
    }
  }

  /**
   The invariant and both ledgers start: over every run from a table as it is made the table
   is sound, a player has what was brought and the gains of the rounds finished, and every
   card that was in the shoe is in the shoe, in a hand or put away.
   */
  lemma FreshRun(s: Table, rs: seq<Request>, i: nat, c: Card)
    requires IsFresh(s) && CanRun(s, rs) && 0 < i < |s.players|
    ensures IsSound(s) && IsSound(Run(s, rs)) && |Run(s, rs).players| == |s.players|
    ensures Worth(Run(s, rs).players[i]) == s.players[i].balance + RunGain(s, rs, i)
    ensures TableCount(Run(s, rs), c) + RunDiscards(s, rs, c) == Count(s.shoe, c)
  {
    hide Run, CanRun, RunGain, RunDiscards;
    FreshIsSound(s);
    RunLedger(s, rs, i);
    RunKeepsCards(s, rs, c);
    NoHands(s.players, |s.players|, c);
  }

  lemma {:induction false} NoHands(ps: seq<Player>, n: nat, c: Card)
    requires n <= |ps| && forall i :: 0 <= i < |ps| ==> ps[i].hand == NEW_HAND
    ensures HandCount(ps, n, c) == 0
    decreases n
  {
    if n > 0 { NoHands(ps, n - 1, c); }
  }
}
