/**
 The table of cpprest/Table.cpp as an object: its methods update players, shoe and turn in
 place, each one exactly as the rules of the game as values have it.
 */
module BlackjackTable {
  import opened Sequences
  import opened BlackjackHand
  import opened BlackjackShoe
  import opened BlackjackRules
  import opened BlackjackRounds
  import opened BlackjackSeats

  const DEALER := "DEALER"

  function NewPlayer(name: string): Player {
    Player(name, NEW_HAND, 1000.0)
  }

  ghost predicate NobodyIs(ps: seq<Player>, name: string) {
    forall k :: 0 <= k < |ps| ==> ps[k].name != name
  }

  ghost predicate IsFirstSeat(ps: seq<Player>, name: string, i: int) {
    0 <= i < |ps| && ps[i].name == name && forall k :: 0 <= k < i ==> ps[k].name != name
  }

  /** The seat before the deal, with the dealer's second card to be covered. */
  function Revealed(ps: seq<Player>, i: nat): Player
    requires i < |ps|
  {
    ps[i].(hand := ps[i].hand.(revealBoth := if i == 0 then false else ps[i].hand.revealBoth))
  }

  /** The seats after the deal; an active player among them has bet. */
  lemma DealtStates(ps: seq<Player>, cards: seq<Card>, qs: seq<Player>)
    requires 2 * Takers(ps, |ps|) <= |cards| && |qs| == |ps|
    requires forall j :: 0 <= j < |ps| ==> qs[j] == ps[j].(hand := DealtHand(ps, cards, j))
    ensures qs == DealtPlayers(ps, cards)
    ensures forall j :: 0 < j < |qs| && qs[j].hand.state == Active ==> qs[j].hand.bet > 0.0
  {
  }

  lemma DealIs(s: Table)
    requires CanDeal(s)
    ensures s.players != [] && Takers(s.players, |s.players|) <= 2 * Takers(s.players, |s.players|) <= |s.shoe|
    ensures var ps := DealtPlayers(s.players, s.shoe); var k := NextPlaying(ps, 1);
      Deal(s) == Table(ps, s.shoe[2 * Takers(s.players, |s.players|)..],
                       if k < |ps| then k else |ps| - 1, s.betsMade, false)
  {
  }

  /** The seat after the first card of the deal. */
  function FirstDealt(ps: seq<Player>, shoe: seq<Card>, i: nat): Player
    requires i < |ps| && Takers(ps, |ps|) <= |shoe|
  {
    TakersGrow(ps, i, |ps|);
    var h := Cleared(ps[i].hand).(revealBoth := if i == 0 then false else ps[i].hand.revealBoth);
    ps[i].(hand := if Takes(ps, i) then h.(cards := [shoe[Takers(ps, i)]]) else h)
  }

  lemma FirstCard(ps: seq<Player>, cards: seq<Card>, i: nat)
    requires i < |ps| && Takers(ps, |ps|) <= |cards|
    ensures Takers(ps, i) <= Takers(ps, i + 1) <= Takers(ps, |ps|)
    ensures Takes(ps, i) ==> Takers(ps, i + 1) == Takers(ps, i) + 1
    ensures !Takes(ps, i) ==> Takers(ps, i + 1) == Takers(ps, i)
    ensures var p := Revealed(ps, i);
      var h := Cleared(p.hand);
      && h.bet == ps[i].hand.bet
      && FirstDealt(ps, cards, i)
         == p.(hand := if Takes(ps, i) then h.(cards := h.cards + [cards[Takers(ps, i)]]) else h)
  {
    TakersGrow(ps, i + 1, |ps|);
  }

  lemma NoTakers(ps: seq<Player>)
    ensures Takers(ps, 0) == 0
  {
  }

  lemma SecondCard(ps: seq<Player>, cards: seq<Card>, i: nat)
    requires i < |ps| && 2 * Takers(ps, |ps|) <= |cards|
    ensures Takers(ps, i) <= Takers(ps, i + 1) <= Takers(ps, |ps|)
    ensures Takes(ps, i) ==> Takers(ps, i + 1) == Takers(ps, i) + 1
    ensures !Takes(ps, i) ==> Takers(ps, i + 1) == Takers(ps, i)
    ensures var p := FirstDealt(ps, cards, i);
      && p.hand.bet == ps[i].hand.bet
      && ps[i].(hand := DealtHand(ps, cards, i))
         == if Takes(ps, i) then p.(hand := WithCard(p.hand, cards[Takers(ps, |ps|) + Takers(ps, i)])) else p
  {
    TakersGrow(ps, i + 1, |ps|);
  }

  /** What follows on a hit: the turn goes on when the hand is busted or a black jack, and nothing else does. */
  lemma HitTurn(s: Table)
    requires CanStep(s, Hit)
    ensures var t := WithCurrentCard(s);
      && t.current == s.current < |t.players|
      && var state := t.players[t.current].hand.state;
      && var r := if state == BlackJack || state == Busted then StayTurn(t) else Turn(t, false, false);
      && CanFollow(r) && Step(s, Hit) == Follow(r)
      && (!(state == BlackJack || state == Busted) ==> Follow(r) == t)
  {
    hide StateOf, StayTurn, CanFinish;
  }

  class DealerTable {
    var players: seq<Player>
    var shoe: seq<Card>
    var currentPlayer: nat
    var betsMade: int
    var betting: bool

    /** A table of its own dealer and a full shoe. */
    constructor (decks: nat, places: seq<nat>)
      requires |places| == ROUNDS * (decks * 52) && ArePlaces(places, decks * 52)
      ensures IsFresh(State()) && players == [NewPlayer(DEALER)] && IsShoe(shoe, decks)
    {
      players, currentPlayer, betsMade, betting := [NewPlayer(DEALER)], 0, 0, true;
      shoe := [];
      new;
      shoe := FillShoe(shoe, decks, places);
      assert shoe[0..] == shoe;
    }

    function State(): Table
      reads this
    {
      Table(players, shoe, currentPlayer, betsMade, betting)
    }

    // ---------- seats ----------

    /** cpprest/Table.cpp `FindPlayer`. */
    method Find(name: string) returns (idx: int)
      ensures idx == FindPlayer(players, name)
    {
      idx := 0;
      while idx < |players|
        invariant 0 <= idx <= |players| && FindPlayer(players, name) == FindFrom(players, name, idx)
      {
        if players[idx].name == name { return; }
        idx := idx + 1;
      }
      return -1;
    }

    /** cpprest/Table.cpp `AddPlayer`. */
    method AddPlayer(player: Player) returns (ok: bool)
      modifies this`players
      ensures players == Seated(old(players), player)
      ensures ok <==> IsFirstSeat(old(players), player.name, 0) || NobodyIs(old(players), player.name)
      ensures players == if ok then old(players) + [player] else old(players)
    {
      var idx := Find(player.name);
      if idx > 0 { return false; }
      players := players + [player];
      return true;
    }

    /** cpprest/Table.cpp `RemovePlayer`. */
    method RemovePlayer(name: string) returns (ok: bool)
      modifies this`players
      ensures players == Unseated(old(players), name)
      ensures ok <==> !NobodyIs(old(players), name)
      ensures !ok ==> players == old(players)
      ensures forall i :: IsFirstSeat(old(players), name, i) ==> players == old(players)[..i] + old(players)[i + 1..]
    {
      var i := 0;
      while i < |players|
        invariant 0 <= i <= |players| && players == old(players)
        invariant FindPlayer(players, name) == FindFrom(players, name, i)
      {
        if players[i].name == name {
          players := players[..i] + players[i + 1..];
          return true;
        }
        i := i + 1;
      }
      return false;
    }

    // ---------- dealing ----------

    /** cpprest/Table.cpp `Deal`. */
    method DealCards()
      requires CanDeal(State())
      modifies this
      ensures State() == Deal(old(State()))
    {
      hide DealtHand, DealtPlayers, FirstDealt, Takers, NextPlaying, Deal, CanDeal;
      DealIs(State());
      ghost var ps, cards := players, shoe;
      players := players[0 := players[0].(hand := players[0].hand.(revealBoth := false))];
      currentPlayer := 0;
      betting := false;
      DealFirst(ps);
      DealSecond(ps, cards);
      DealtStates(ps, cards, players);
      StartTurns();
    }

    /** The first turn of the deal: hands are cleared, and each taker gets a card. */
    method DealFirst(ghost ps: seq<Player>)
      requires ps != [] && |players| == |ps| && Takers(ps, |ps|) <= |shoe|
      requires forall j :: 0 <= j < |ps| ==> players[j] == Revealed(ps, j)
      modifies this`players, this`shoe
      ensures |players| == |ps| && shoe == old(shoe)[Takers(ps, |ps|)..]
      ensures forall j :: 0 <= j < |ps| ==> players[j] == FirstDealt(ps, old(shoe), j)
    {
      hide Takers, FirstDealt, Revealed, Cleared;
      NoTakers(ps);
      for i := 0 to |players|
        invariant |players| == |ps| && Takers(ps, i) <= Takers(ps, |ps|) && shoe == old(shoe)[Takers(ps, i)..]
        invariant forall j :: 0 <= j < i ==> players[j] == FirstDealt(ps, old(shoe), j)
        invariant forall j :: i <= j < |ps| ==> players[j] == Revealed(ps, j)
      {
        FirstCard(ps, old(shoe), i);
        var h := Cleared(players[i].hand);
        if i == 0 || h.bet > 0.0 {
          DropOne(old(shoe), Takers(ps, i));
          h := h.(cards := h.cards + [shoe[0]]);
          shoe := shoe[1..];
        }
        players := players[i := players[i].(hand := h)];
      }
    }

    /** The second turn of the deal. */
    method DealSecond(ghost ps: seq<Player>, ghost cards: seq<Card>)
      requires |players| == |ps| && 2 * Takers(ps, |ps|) <= |cards| && shoe == cards[Takers(ps, |ps|)..]
      requires forall j :: 0 <= j < |ps| ==> players[j] == FirstDealt(ps, cards, j)
      modifies this`players, this`shoe
      ensures |players| == |ps| && shoe == cards[2 * Takers(ps, |ps|)..]
      ensures forall j :: 0 <= j < |ps| ==> players[j] == ps[j].(hand := DealtHand(ps, cards, j))
    {
      hide WithCard, DealtHand, FirstDealt, Takers;
      ghost var total := Takers(ps, |ps|);
      NoTakers(ps);
      for i := 0 to |players|
        invariant |players| == |ps| && Takers(ps, i) <= total && shoe == cards[total + Takers(ps, i)..]
        invariant forall j :: 0 <= j < i ==> players[j] == ps[j].(hand := DealtHand(ps, cards, j))
        invariant forall j :: i <= j < |ps| ==> players[j] == FirstDealt(ps, cards, j)
      {
        SecondCard(ps, cards, i);
        if i == 0 || players[i].hand.bet > 0.0 {
          DropOne(cards, total + Takers(ps, i));
          players := players[i := players[i].(hand := WithCard(players[i].hand, shoe[0]))];
          shoe := shoe[1..];
        }
      }
    }

    /** The search for the first player at turn; like the source it leaves the last seat at turn when there is none. */
    method StartTurns()
      requires players != [] && currentPlayer == 0
      requires forall j :: 0 <= j < |players| && players[j].hand.state == Active ==> players[j].hand.bet > 0.0 || j == 0
      modifies this`currentPlayer
      ensures currentPlayer == var k := NextPlaying(players, 1); if k < |players| then k else |players| - 1
    {
      var player := currentPlayer + 1;
      while player < |players|
        invariant 1 <= player <= |players| && currentPlayer == player - 1
        invariant NextPlaying(players, 1) == NextPlaying(players, player)
      {
        currentPlayer := player;
        if players[player].hand.bet != 0.0 && players[player].hand.state == Active { break; }
        player := player + 1;
      }
    }

    // ---------- turns ----------

    /** cpprest/Table.cpp `Hit`. */
    method TakeCard()
      requires CanStep(State(), Hit)
      modifies this
      ensures State() == Step(old(State()), Hit)
    {
      hide StateOf, StayTurn, CanFollow, Follow;
      ghost var s := State();
      var card := shoe[0];
      shoe := shoe[1..];
      players := players[currentPlayer := players[currentPlayer].(hand := WithCard(players[currentPlayer].hand, card))];
      assert State() == WithCurrentCard(s);
      HitTurn(s);
      var state := players[currentPlayer].hand.state;
      if state == BlackJack || state == Busted { StayPut(); }
    }

    /** cpprest/Table.cpp `DoubleDown`. */
    method Double()
      requires CanStep(State(), DoubleDown)
      modifies this
      ensures State() == Step(old(State()), DoubleDown)
    {
      hide StateOf, StayTurn, CanFinish;
      ghost var s := State();
      if currentPlayer == 0 || players[currentPlayer].hand.state != Active { return; }
      var current := players[currentPlayer];
      if current.balance < current.hand.bet { return; }
      if |current.hand.cards| > 2 { return; }
      current := current.(balance := current.balance - current.hand.bet);
      current := current.(hand := current.hand.(bet := current.hand.bet * 2.0));
      var card := shoe[0];
      shoe := shoe[1..];
      current := current.(hand := WithCard(current.hand, card));
      players := players[currentPlayer := current];
      assert State() == WithCurrentCard(Doubled(s));
      StayPut();
    }

    /** cpprest/Table.cpp `Stay`. */
    method StayPut()
      requires currentPlayer < |players| && CanFollow(StayTurn(State()))
      modifies this
      ensures State() == Follow(StayTurn(old(State())))
    {
      if currentPlayer == 0 { return; }
      if players[currentPlayer].hand.state == Active {
        var player := players[currentPlayer];
        players := players[currentPlayer := player.(hand := player.hand.(state := Held))];
      }
      NextPlayer();
    }

    /** cpprest/Table.cpp `NextPlayer`. */
    method NextPlayer()
      requires currentPlayer < |players| && CanFollow(NextTurn(State()))
      modifies this
      ensures State() == Follow(NextTurn(old(State())))
    {
      var player := currentPlayer + 1;
      while player < |players|
        invariant player <= |players| && NextPlaying(players, currentPlayer + 1) == NextPlaying(players, player)
      {
        if players[player].hand.bet > 0.0 && players[player].hand.state == Active { break; }
        player := player + 1;
      }
      currentPlayer := player;
      if currentPlayer == |players| { currentPlayer := 0; }
      if currentPlayer == 0 { FinishRound(); }
    }

    // ---------- bets ----------

    /** cpprest/Table.cpp `Bet`. */
    method PlaceBet(name: string, amount: int)
      requires CanStep(State(), Bet(name, amount))
      modifies this
      ensures State() == Step(old(State()), Bet(name, amount))
    {
      hide CanDeal, Deal;
      var idx := Find(name);
      if idx > 0 {
        var p := players[idx];
        p := p.(balance := p.balance - amount as real);
        players := players[idx := p.(hand := p.hand.(bet := p.hand.bet + amount as real))];
      }
      betsMade := betsMade + 1;
      if betsMade == |players| - 1 { DealCards(); }
      if currentPlayer == |players| {
        currentPlayer := 0;
        FinishRound();
      }
    }

    /** cpprest/Table.cpp `Insure`. */
    method BuyInsurance(name: string, amount: int)
      requires CanStep(State(), Insure(name, amount))
      modifies this
      ensures State() == Step(old(State()), Insure(name, amount))
    {
      var idx := Find(name);
      if idx > 0 {
        var dealer := players[0].hand;
        if players[idx].hand.insurance > 0.0 { return; }
        if |dealer.cards| < 1 || dealer.revealBoth || dealer.cards[0].value != ACE { return; }
        var p := players[idx];
        p := p.(balance := p.balance - amount as real);
        players := players[idx := p.(hand := p.hand.(insurance := p.hand.insurance + amount as real))];
      }
    }

    // ---------- the end of a round ----------

    /** cpprest/Table.cpp `PayUp`. */
    method PaySeat(idx: nat)
      requires 0 < idx < |players|
      modifies this`players
      ensures players == old(players)[idx := PayUp(old(players)[idx], old(players)[0].hand)]
    {
      var player := players[idx];
      var h := player.hand;
      if h.result == PlayerWin {
        player := player.(balance := player.balance + h.bet * 2.0);
        h := h.(bet := 0.0);
      } else if h.result == ComputerWin {
        h := h.(bet := 0.0);
      } else if h.result == PlayerBlackJack {
        player := player.(balance := player.balance + h.bet * 2.5);
        h := h.(bet := 0.0);
      } else if h.result == Push {
        player := player.(balance := player.balance + h.bet);
        h := h.(bet := 0.0);
      }
      if h.insurance > 0.0 && StateNumber(players[0].hand.state) == ResultNumber(PlayerBlackJack) {
        player := player.(balance := player.balance + h.insurance * 3.0);
      }
      h := h.(insurance := 0.0);
      players := players[idx := player.(hand := h)];
    }

    /** The loop in which the dealer draws. */
    method DealerDraws() returns (handValue: Values)
      requires currentPlayer == 0 && CanFinish(State())
      modifies this`players, this`shoe
      ensures var play := DealersPlay(old(State()));
        players == old(players)[0 := old(players)[0].(hand := play.hand)] && shoe == play.shoe
          && handValue == play.value
    {
      hide StateOf;
      ghost var s := State();
      RevealingChangesNothing(s.players[0].hand, s.shoe, NumericValues(s.players[0].hand.cards));
      var dealersHand := players[0].hand.(revealBoth := true);
      handValue := GetNumericValues(dealersHand.cards);
      while handValue.high < 17 || (handValue.high > 21 && handValue.low < 17)
        invariant players == old(players) && ShoeSuffices(dealersHand, shoe, handValue)
        invariant DealersPlay(s) == DealerPlay(dealersHand, shoe, handValue)
        decreases |shoe|
      {
        var card := shoe[0];
        shoe := shoe[1..];
        dealersHand := WithCard(dealersHand, card);
        if dealersHand.state == BlackJack || dealersHand.state == Busted { break; }
        handValue := GetNumericValues(dealersHand.cards);
      }
      players := players[0 := players[0].(hand := dealersHand)];
    }

    /** One round of the loop that finds the results. */
    method SetResult(i: nat, handValue: Values)
      requires 0 < i < |players|
      modifies this`players
      ensures var p := old(players)[i];
        players == old(players)[i := p.(hand := p.hand.(result := ResultOf(p.hand, old(players)[0].hand, handValue)))]
    {
      var player, dealersHand := players[i], players[0].hand;
      var result;
      if player.hand.bet == 0.0 {
        result := NoResult;
      } else if player.hand.state == Busted {
        result := ComputerWin;
      } else if player.hand.state == BlackJack {
        result := if dealersHand.state == BlackJack then Push else PlayerBlackJack;
      } else if dealersHand.state == Busted {
        result := PlayerWin;
      } else if dealersHand.state == BlackJack {
        result := ComputerWin;
      } else {
        var value := GetNumericValues(player.hand.cards);
        result := if Best(value) < Best(handValue) then ComputerWin
                  else if Best(value) == Best(handValue) then Push else PlayerWin;
      }
      players := players[i := player.(hand := player.hand.(result := result))];
    }

    /** cpprest/Table.cpp `DealerDeal`. */
    method FinishRound()
      requires currentPlayer == 0 && CanFinish(State())
      modifies this
      ensures State() == DealerDeal(old(State()))
    {
      hide StateOf, ResultOf, PayUp, ShoeSuffices, DealersPlay;
      ghost var ps, play := players, DealersPlay(State());
      var handValue := DealerDraws();
      for i := 1 to |players|
        invariant |players| == |ps| && currentPlayer == 0 && shoe == play.shoe
        invariant players[0] == ps[0].(hand := play.hand)
        invariant forall j :: 1 <= j < i ==> players[j] == Resulted(ps[j], play)
        invariant forall j :: i <= j < |ps| ==> players[j] == ps[j]
      {
        SetResult(i, handValue);
      }
      betting := true;
      for i := 1 to |players|
        invariant |players| == |ps| && currentPlayer == 0 && shoe == play.shoe && betting
        invariant players[0] == ps[0].(hand := play.hand)
        invariant forall j :: 1 <= j < i ==> players[j] == Settled(ps[j], play)
        invariant forall j :: i <= j < |ps| ==> players[j] == Resulted(ps[j], play)
      {
        PaySeat(i);
      }
      betsMade := 0;
    }
  }

  function Resulted(p: Player, play: Play): Player {
    p.(hand := p.hand.(result := ResultOf(p.hand, play.hand, play.value)))
  }

  // ---------- who sits at the table ----------

  ghost predicate DistinctNames(ps: seq<Player>) {
    forall i, j :: 0 <= i < j < |ps| ==> ps[i].name != ps[j].name
  }

  /** Adding players keeps all names different except when one comes under the name of the first seat, the dealer's. */
  lemma AddKeepsNamesIff(ps: seq<Player>, player: Player)
    requires DistinctNames(ps) && ps != []
    ensures DistinctNames(Seated(ps, player)) <==> player.name != ps[0].name
  {
    var qs := Seated(ps, player);
    if player.name == ps[0].name {
      assert FindPlayer(ps, player.name) == 0;
      assert qs[0].name == qs[|ps|].name;
    }
  }
}
