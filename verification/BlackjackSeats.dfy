/**
 Runs in which players come and go: when the turn gets behind the last seat, so that a bet
 makes the dealer play.
 */
module BlackjackSeats {
  import opened BlackjackHand
  import opened BlackjackRules
  import opened BlackjackRounds

  /** The seats after `AddPlayer`. */
  function Seated(ps: seq<Player>, player: Player): seq<Player> {
    if FindPlayer(ps, player.name) > 0 then ps else ps + [player]
  }

  /** The seats after `RemovePlayer`. */
  function Unseated(ps: seq<Player>, name: string): seq<Player> {
    var idx := FindPlayer(ps, name);
    if idx >= 0 then ps[..idx] + ps[idx + 1..] else ps
  }

  datatype Event = Ask(request: Request) | Join(player: Player) | Leave(name: string)

  predicate CanHappen(s: Table, e: Event) {
    e.Ask? ==> CanStep(s, e.request)
  }

  function After(s: Table, e: Event): Table
    requires CanHappen(s, e)
  {
    match e
    case Ask(request) => Step(s, request)
    case Join(player) => s.(players := Seated(s.players, player))
    case Leave(name) => s.(players := Unseated(s.players, name))
  }

  predicate CanPass(s: Table, es: seq<Event>)
    decreases |es|
  {
    es == [] || (CanHappen(s, es[0]) && CanPass(After(s, es[0]), es[1..]))
  }

  function Pass(s: Table, es: seq<Event>): Table
    requires CanPass(s, es)
    decreases |es|
  {
    if es == [] then s else Pass(After(s, es[0]), es[1..])
  }

  // ---------- when a bet finishes a round ----------

  /** The dealer has played, which leaves no bet counted; a bet by itself counts one. */
  predicate RoundIsOver(s: Table) {
    s.betting && s.betsMade == 0
  }

  /**
   A bet finishes the round exactly if the turn stands behind the last seat and the bet is
   not the one that deals, whatever table it is placed at.
   */
  lemma BetFinishesIff(s: Table, name: string, amount: int)
    requires s.betsMade >= 0 && CanStep(s, Bet(name, amount))
    ensures RoundIsOver(Step(s, Bet(name, amount)))
       <==> s.current == |s.players| && s.betsMade + 1 != |s.players| - 1
  {
    hide DealtPlayers, DealersPlay, StateOf;
    var t := TurnOf(s, Bet(name, amount));
    if t.deals { DealtTurn(t); }
  }

  // ---------- leaving between rounds ----------

  /** The turn is with a seat, and with the dealer's while bets are open. */
  ghost predicate TurnStays(s: Table) {
    s.betsMade >= 0 && (s.betting ==> s.current == 0) && (s.current == 0 || s.current < |s.players|)
  }

  lemma StepKeepsTurn(s: Table, r: Request)
    requires TurnStays(s) && CanStep(s, r)
    ensures TurnStays(Step(s, r))
  {
    hide DealtPlayers, DealersPlay, StateOf, CanFinish;
    var t := TurnOf(s, r);
    if t.deals { DealtTurn(t); }
  }

  /** Nobody leaves while a round is played. */
  ghost predicate LeaveBetweenRounds(s: Table, es: seq<Event>)
    requires CanPass(s, es)
    decreases |es|
  {
    es == [] || ((es[0].Leave? ==> s.betting) && LeaveBetweenRounds(After(s, es[0]), es[1..]))
  }

  lemma {:induction false} PassKeepsTurn(s: Table, es: seq<Event>)
    requires TurnStays(s) && CanPass(s, es) && LeaveBetweenRounds(s, es)
    ensures TurnStays(Pass(s, es))
    decreases |es|
  {
    hide Step, CanStep;
    if es != [] {
      if es[0].Ask? { StepKeepsTurn(s, es[0].request); }
      PassKeepsTurn(After(s, es[0]), es[1..]);
    }
  }

  /** Whoever joins, and whoever leaves between rounds, no bet finishes a round. */
  lemma NoBetFinishes(s: Table, es: seq<Event>, name: string, amount: int)
    requires IsFresh(s) && CanPass(s, es) && LeaveBetweenRounds(s, es) && CanStep(Pass(s, es), Bet(name, amount))
    ensures !RoundIsOver(Step(Pass(s, es), Bet(name, amount)))
  {
    PassKeepsTurn(s, es);
    BetFinishesIff(Pass(s, es), name, amount);
  }

  // ---------- leaving in mid-round ----------

  function AllLeave(s: Table, names: seq<string>): Table
    decreases |names|
  {
    if names == [] then s else AllLeave(After(s, Leave(names[0])), names[1..])
  }

  lemma {:induction false} LeavingOnlyUnseats(s: Table, names: seq<string>)
    ensures var t := AllLeave(s, names);
      t == s.(players := t.players) && |t.players| <= |s.players|
    decreases |names|
  {
    if names != [] { LeavingOnlyUnseats(After(s, Leave(names[0])), names[1..]); }
  }

  /**
   When players leave in mid-round, the next bet finishes the round exactly if as many seats
   are left as the number of the seat at turn.
   */
  lemma BetAfterLeavingIff(s: Table, names: seq<string>, name: string, amount: int)
    requires IsSound(s) && !s.betting && CanStep(AllLeave(s, names), Bet(name, amount))
    ensures RoundIsOver(Step(AllLeave(s, names), Bet(name, amount))) <==> |AllLeave(s, names).players| == s.current
  {
    hide IsProperHand;
    LeavingOnlyUnseats(s, names);
    BetFinishesIff(AllLeave(s, names), name, amount);
  }

  // ---------- a round cut short ----------

  const LEAVING: seq<Event> := [Ask(Bet("x", 10)), Ask(Bet("a", 10)), Ask(Stay), Leave("x")]

  function LeavingTable(rest: seq<Card>): (s: Table)
    ensures |s.players| == 3
  {
    Table([Waiting("DEALER"), Waiting("x"), Waiting("a")],
          seq(6, k requires 0 <= k < 6 => Card(k % 3, if k < 3 then 5 else 6)) + ([Card(3, 6)] + rest), 0, 0, true)
  }

  function LeavingDealt(rest: seq<Card>): (s: Table)
    ensures |s.players| == 3
  {
    Table([LateBetDealer(), Eleven("x", 1, 10.0, Active), Eleven("a", 2, 10.0, Active)],
          [Card(3, 6)] + rest, 1, 2, false)
  }

  function LeavingPassed(rest: seq<Card>): (s: Table)
    ensures |s.players| == 3
  {
    Table([LateBetDealer(), Eleven("x", 1, 10.0, Held), Eleven("a", 2, 10.0, Active)],
          [Card(3, 6)] + rest, 2, 2, false)
  }

  function LeavingLeft(rest: seq<Card>): (s: Table)
    ensures |s.players| == 2
  {
    Table([LateBetDealer(), Eleven("a", 2, 10.0, Active)], [Card(3, 6)] + rest, 2, 2, false)
  }

  lemma FindTwo(ps: seq<Player>)
    requires |ps| == 3 && ps[0].name == "DEALER" && ps[1].name == "x" && ps[2].name == "a"
    ensures FindPlayer(ps, "x") == 1 && FindPlayer(ps, "a") == 2
  {
    assert "DEALER"[0] == 'D' && "x"[0] == 'x' && "a"[0] == 'a';
  }

  lemma FindOne(ps: seq<Player>)
    requires |ps| == 2 && ps[0].name == "DEALER" && ps[1].name == "a"
    ensures FindPlayer(ps, "a") == 1
  {
    assert "DEALER"[0] == 'D' && "a"[0] == 'a';
  }

  lemma BothTake(ps: seq<Player>)
    requires |ps| == 3 && Takes(ps, 1) && Takes(ps, 2)
    ensures forall i :: 0 <= i <= 3 ==> Takers(ps, i) == i
  {
    assert Takers(ps, 1) == 1 && Takers(ps, 2) == 2 && Takers(ps, 3) == 3;
  }

  lemma HandDealt(ps: seq<Player>, rest: seq<Card>, i: nat)
    requires |ps| == 3 && i < 3 && Takes(ps, i) && forall k :: 0 <= k <= 3 ==> Takers(ps, k) == k
    requires ps[i].hand == NEW_HAND.(bet := ps[i].hand.bet)
    ensures 6 <= |LeavingTable(rest).shoe|
    ensures var h := DealtHand(ps, LeavingTable(rest).shoe, i);
      h == Hand(i != 0, [Card(i, 5), Card(i, 6)], ps[i].hand.bet, 0.0, Active, NoResult)
  {
    hide StateOf;
    ElevenIsActive(i);
  }

  lemma SeatsBeforeDeal(rest: seq<Card>, t: Table)
    requires t == AfterBet(AfterBet(LeavingTable(rest), 1, 10), 2, 10)
    ensures t.shoe == LeavingTable(rest).shoe && |t.shoe| == 7 + |rest| && t.shoe[6..] == [Card(3, 6)] + rest
    ensures t.betsMade == 2 && t.betting && |t.players| == 3 && t.players[0] == Waiting("DEALER")
    ensures forall i :: 1 <= i < 3 ==> t.players[i] == Player(["", "x", "a"][i], NEW_HAND.(bet := 10.0), 990.0)
  {
  }

  lemma LeavingDeal(rest: seq<Card>, t: Table)
    requires t == AfterBet(AfterBet(LeavingTable(rest), 1, 10), 2, 10)
    ensures CanDeal(t) && Deal(t) == LeavingDealt(rest)
  {
    hide DealtHand, StateOf, LeavingTable, Takers;
    SeatsBeforeDeal(rest, t);
    BothTake(t.players);
    forall i | 0 <= i < 3 ensures DealtPlayers(t.players, t.shoe)[i] == LeavingDealt(rest).players[i] {
      HandDealt(t.players, rest, i);
    }
  }

  lemma LeavingBets(rest: seq<Card>)
    requires AreCards(rest)
    ensures var s := LeavingTable(rest);
      && IsFresh(s)
      && CanStep(s, Bet("x", 10)) && Step(s, Bet("x", 10)) == AfterBet(s, 1, 10)
      && CanStep(AfterBet(s, 1, 10), Bet("a", 10)) && Step(AfterBet(s, 1, 10), Bet("a", 10)) == LeavingDealt(rest)
  {
    hide Deal, CanDeal;
    var s := LeavingTable(rest);
    FindTwo(s.players);
    FindTwo(AfterBet(s, 1, 10).players);
    LeavingDeal(rest, AfterBet(AfterBet(s, 1, 10), 2, 10));
  }

  lemma LeavingStays(rest: seq<Card>)
    ensures CanStep(LeavingDealt(rest), Stay) && Step(LeavingDealt(rest), Stay) == LeavingPassed(rest)
    ensures After(LeavingPassed(rest), Leave("x")) == LeavingLeft(rest)
  {
    var h := AfterHold(LeavingDealt(rest));
    assert NextPlaying(h.players, 2) == 2;
    FindTwo(LeavingPassed(rest).players);
    assert Unseated(LeavingPassed(rest).players, "x") == LeavingLeft(rest).players;
  }

  /** With one more card the dealer stands on seventeen. */
  lemma DealerStands(rest: seq<Card>)
    ensures ShoeSuffices(LateBetDealer().hand, [Card(3, 6)] + rest, NumericValues(LateBetDealer().hand.cards))
  {
    var h := WithCard(LateBetDealer().hand, Card(3, 6));
    LowOfTwo(LateBetDealer().hand.cards);
    LowSnoc(LateBetDealer().hand.cards, Card(3, 6));
    assert NumericValues(h.cards) == Values(17, 17);
    assert ([Card(3, 6)] + rest)[0] == Card(3, 6);
  }

  lemma LeavingBet(rest: seq<Card>)
    ensures var q := LeavingLeft(rest);
      CanStep(q, Bet("a", 0)) && RoundIsOver(Step(q, Bet("a", 0))) && IsIn(q.players[1])
  {
    hide ShoeSuffices, NumericValues;
    var q := LeavingLeft(rest);
    FindOne(q.players);
    DealerStands(rest);
    BetFinishesIff(q, "a", 0);
  }

  /**
   From a table as it is made: the first of two players stays and leaves while the second is
   at turn; a bet of nothing by the second then makes the dealer play, with that hand still in.
   */
  lemma LeavingExample(rest: seq<Card>)
    requires AreCards(rest)
    ensures var s := LeavingTable(rest);
      && IsFresh(s) && CanPass(s, LEAVING)
      && var q := Pass(s, LEAVING);
      |q.players| == 2 && IsIn(q.players[1])
      && CanStep(q, Bet("a", 0)) && RoundIsOver(Step(q, Bet("a", 0)))
  {
    hide CanStep, Step, CanPass, Pass, RoundIsOver;
    var s := LeavingTable(rest);
    LeavingBets(rest);
    LeavingStays(rest);
    LeavingBet(rest);
    PassOne(s, LEAVING, 0);
    PassOne(AfterBet(s, 1, 10), LEAVING, 1);
    PassOne(LeavingDealt(rest), LEAVING, 2);
    PassOne(LeavingPassed(rest), LEAVING, 3);
    PassNone(LeavingLeft(rest));
    assert LEAVING[0..] == LEAVING && LEAVING[4..] == [];
  }

  lemma PassNone(s: Table)
    ensures CanPass(s, []) && Pass(s, []) == s
  {
  }

  lemma PassOne(s: Table, es: seq<Event>, k: nat)
    requires k < |es| && CanHappen(s, es[k])
    ensures CanPass(s, es[k..]) <==> CanPass(After(s, es[k]), es[k + 1..])
    ensures CanPass(s, es[k..]) ==> Pass(s, es[k..]) == Pass(After(s, es[k]), es[k + 1..])
  {
    hide CanHappen, After;
    assert es[k..][1..] == es[k + 1..] && es[k..][0] == es[k];
  }
}
