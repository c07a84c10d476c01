/**
 What every request to a table of cpprest/Table.cpp does to the table as a value: betting,
 dealing, the players' turns, the dealer's play and the settlement of a round.
 */
module BlackjackRules {
  import opened BlackjackHand

  datatype Player = Player(name: string, hand: Hand, balance: real)

  /** The dealer sits at place 0. */
  datatype Table = Table(players: seq<Player>, shoe: seq<Card>, current: nat, betsMade: int, betting: bool)

  /** The first seat of a name, or -1. */
  function FindPlayer(ps: seq<Player>, name: string): (idx: int)
    ensures -1 <= idx < |ps| && (idx >= 0 ==> ps[idx].name == name)
    ensures forall k :: 0 <= k < (if idx >= 0 then idx else |ps|) ==> ps[k].name != name
  {
    FindFrom(ps, name, 0)
  }

  function FindFrom(ps: seq<Player>, name: string, from: nat): (idx: int)
    requires from <= |ps|
    ensures -1 <= idx < |ps| && (idx >= 0 ==> from <= idx && ps[idx].name == name)
    ensures forall k :: from <= k < (if idx >= 0 then idx else |ps|) ==> ps[k].name != name
    decreases |ps| - from
  {
    if from == |ps| then -1 else if ps[from].name == name then from else FindFrom(ps, name, from + 1)
  }

  // ---------- dealing ----------

  /** The dealer and whoever has bet get cards. */
  predicate Takes(ps: seq<Player>, i: nat)
    requires i < |ps|
  {
    i == 0 || ps[i].hand.bet > 0.0
  }

  /** How many of the first `n` seats get cards. */
  function Takers(ps: seq<Player>, n: nat): (k: nat)
    requires n <= |ps|
    ensures k <= n
  {
    if n == 0 then 0 else Takers(ps, n - 1) + (if Takes(ps, n - 1) then 1 else 0)
  }

  lemma {:induction false} TakersGrow(ps: seq<Player>, i: nat, n: nat)
    requires i <= n <= |ps|
    ensures Takers(ps, i) <= Takers(ps, n)
    ensures i < n && Takes(ps, i) ==> Takers(ps, i) < Takers(ps, n)
    decreases n - i
  {
    if i < n { TakersGrow(ps, i, n - 1); }
  }

  /** The hand of a seat after the deal: two cards a full turn of the table apart, or none. */
  function DealtHand(ps: seq<Player>, shoe: seq<Card>, i: nat): Hand
    requires i < |ps| && 2 * Takers(ps, |ps|) <= |shoe|
  {
    TakersGrow(ps, i, |ps|);
    var h := Cleared(ps[i].hand).(revealBoth := if i == 0 then false else ps[i].hand.revealBoth);
    if Takes(ps, i) then WithCard(h.(cards := [shoe[Takers(ps, i)]]), shoe[Takers(ps, |ps|) + Takers(ps, i)]) else h
  }

  function DealtPlayers(ps: seq<Player>, shoe: seq<Card>): (r: seq<Player>)
    requires 2 * Takers(ps, |ps|) <= |shoe|
    ensures |r| == |ps| && forall i :: 0 <= i < |ps| ==> r[i] == ps[i].(hand := DealtHand(ps, shoe, i))
  {
    seq(|ps|, i requires 0 <= i < |ps| => ps[i].(hand := DealtHand(ps, shoe, i)))
  }

  predicate IsPlaying(p: Player) {
    p.hand.bet > 0.0 && p.hand.state == Active
  }

  /** The first seat from `from` on whose player is still playing, or the number of seats. */
  function NextPlaying(ps: seq<Player>, from: nat): (k: nat)
    requires from <= |ps|
    ensures from <= k <= |ps| && (k < |ps| ==> IsPlaying(ps[k]))
    ensures forall j :: from <= j < k ==> !IsPlaying(ps[j])
    decreases |ps| - from
  {
    if from == |ps| || IsPlaying(ps[from]) then from else NextPlaying(ps, from + 1)
  }

  predicate CanDeal(s: Table) {
    s.players != [] && 2 * Takers(s.players, |s.players|) <= |s.shoe|
  }

  function Deal(s: Table): (r: Table)
    requires CanDeal(s)
    ensures |r.players| == |s.players|
  {
    var ps := DealtPlayers(s.players, s.shoe);
    var k := NextPlaying(ps, 1);
    s.(players := ps, shoe := s.shoe[2 * Takers(s.players, |s.players|)..],
       current := if k < |ps| then k else |ps| - 1, betting := false)
  }

  // ---------- the dealer's play ----------

  predicate MustDraw(v: Values) {
    v.high < 17 || (v.high > 21 && v.low < 17)
  }

  /** The dealer's hand, the shoe and the value last looked at when the dealer is done. */
  datatype Play = Play(hand: Hand, shoe: seq<Card>, value: Values)

  /** There are enough cards for the dealer's draws. */
  predicate ShoeSuffices(hand: Hand, shoe: seq<Card>, value: Values)
    decreases |shoe|
  {
    !MustDraw(value) ||
    (shoe != [] &&
     var h := WithCard(hand, shoe[0]);
     h.state == BlackJack || h.state == Busted || ShoeSuffices(h, shoe[1..], NumericValues(h.cards)))
  }

  function DealerPlay(hand: Hand, shoe: seq<Card>, value: Values): Play
    requires ShoeSuffices(hand, shoe, value)
    decreases |shoe|
  {
    if !MustDraw(value) then Play(hand, shoe, value)
    else
      var h := WithCard(hand, shoe[0]);
      if h.state == BlackJack || h.state == Busted then Play(h, shoe[1..], value)
      else DealerPlay(h, shoe[1..], NumericValues(h.cards))
  }

  // ---------- settlement ----------

  /** The result of a hand against the dealer's final hand, whose value is `value`. */
  function ResultOf(hand: Hand, dealer: Hand, value: Values): HandResult {
    if hand.bet == 0.0 then NoResult
    else if hand.state == Busted then ComputerWin
    else if hand.state == BlackJack then (if dealer.state == BlackJack then Push else PlayerBlackJack)
    else if dealer.state == Busted then PlayerWin
    else if dealer.state == BlackJack then ComputerWin
    else
      var best := Best(NumericValues(hand.cards));
      if best < Best(value) then ComputerWin else if best == Best(value) then Push else PlayerWin
  }

  /** The enumerators are numbers; the source compares a state with a result. */
  function StateNumber(s: HandState): nat {
    match s case Empty => 0 case BlackJack => 1 case Active => 2 case Held => 3 case Busted => 4
  }

  function ResultNumber(r: HandResult): nat {
    match r case NoResult => 0 case PlayerBlackJack => 1 case PlayerWin => 2 case ComputerWin => 3 case Push => 4
  }

  /** What is paid out on a bet. */
  function Payout(result: HandResult, bet: real): real {
    match result
    case PlayerWin => bet * 2.0
    case ComputerWin => 0.0
    case PlayerBlackJack => bet * 2.5
    case Push => bet
    case NoResult => 0.0
  }

  function PayUp(p: Player, dealer: Hand): Player {
    var h := p.hand;
    var insured := h.insurance > 0.0 && StateNumber(dealer.state) == ResultNumber(PlayerBlackJack);
    p.(balance := p.balance + Payout(h.result, h.bet) + (if insured then h.insurance * 3.0 else 0.0),
       hand := h.(bet := if h.result == NoResult then h.bet else 0.0, insurance := 0.0))
  }

  function Settled(p: Player, play: Play): Player {
    PayUp(p.(hand := p.hand.(result := ResultOf(p.hand, play.hand, play.value))), play.hand)
  }

  predicate CanFinish(s: Table) {
    s.players != [] && ShoeSuffices(s.players[0].hand, s.shoe, NumericValues(s.players[0].hand.cards))
  }

  function DealersPlay(s: Table): Play
    requires CanFinish(s)
  {
    var hand := s.players[0].hand;
    RevealingChangesNothing(hand, s.shoe, NumericValues(hand.cards));
    DealerPlay(hand.(revealBoth := true), s.shoe, NumericValues(hand.cards))
  }

  lemma {:induction false} RevealingChangesNothing(hand: Hand, shoe: seq<Card>, value: Values)
    ensures ShoeSuffices(hand, shoe, value) == ShoeSuffices(hand.(revealBoth := true), shoe, value)
    decreases |shoe|
  {
    if shoe != [] {
      var h := WithCard(hand, shoe[0]);
      RevealingChangesNothing(h, shoe[1..], NumericValues(h.cards));
    }
  }

  function DealerDeal(s: Table): (r: Table)
    requires CanFinish(s)
    ensures |r.players| == |s.players|
  {
    var play := DealersPlay(s);
    s.(players := seq(|s.players|, i requires 0 <= i < |s.players| =>
         if i == 0 then s.players[0].(hand := play.hand) else Settled(s.players[i], play)),
       shoe := play.shoe, current := 0, betsMade := 0, betting := true)
  }

  // ---------- requests ----------

  /** The requests a table takes while its seats stay the same. */
  datatype Request = Bet(name: string, amount: int) | Insure(name: string, amount: int) | Hit | DoubleDown | Stay

  function WithHand(s: Table, i: nat, h: Hand): Table
    requires i < |s.players|
  {
    s.(players := s.players[i := s.players[i].(hand := h)])
  }

  function AfterBet(s: Table, idx: nat, amount: int): Table
    requires idx < |s.players|
  {
    var p := s.players[idx];
    var q := p.(balance := p.balance - amount as real, hand := p.hand.(bet := p.hand.bet + amount as real));
    s.(players := if idx > 0 then s.players[idx := q] else s.players, betsMade := s.betsMade + 1)
  }

  predicate MayInsure(s: Table, idx: nat)
    requires 0 < idx < |s.players|
  {
    var dealer := s.players[0].hand;
    && !(s.players[idx].hand.insurance > 0.0)
    && |dealer.cards| >= 1 && !dealer.revealBoth && dealer.cards[0].value == ACE
  }

  function AfterInsure(s: Table, idx: nat, amount: int): Table
    requires 0 < idx < |s.players|
  {
    var p := s.players[idx];
    var q := p.(balance := p.balance - amount as real, hand := p.hand.(insurance := p.hand.insurance + amount as real));
    s.(players := s.players[idx := q])
  }

  predicate MayDouble(s: Table)
    requires s.current < |s.players|
  {
    var p := s.players[s.current];
    s.current != 0 && p.hand.state == Active && p.balance >= p.hand.bet && |p.hand.cards| <= 2
  }

  function WithCurrentCard(s: Table): Table
    requires s.current < |s.players| && s.shoe != []
  {
    WithHand(s, s.current, WithCard(s.players[s.current].hand, s.shoe[0])).(shoe := s.shoe[1..])
  }

  function Doubled(s: Table): Table
    requires s.current < |s.players|
  {
    var p := s.players[s.current];
    var q := p.(balance := p.balance - p.hand.bet, hand := p.hand.(bet := p.hand.bet * 2.0));
    s.(players := s.players[s.current := q])
  }

  /** The current player does not go on. */
  function AfterHold(s: Table): Table
    requires s.current < |s.players|
  {
    var h := s.players[s.current].hand;
    if h.state == Active then WithHand(s, s.current, h.(state := Held)) else s
  }

  /** What a request comes to before a round is dealt or finished by it, and which of the two follows. */
  datatype Turn = Turn(table: Table, deals: bool, finishes: bool)

  /** After the current player's turn: the next one's, or the dealer's. */
  function NextTurn(s: Table): Turn
    requires s.current < |s.players|
  {
    var k := NextPlaying(s.players, s.current + 1);
    if k == |s.players| then Turn(s.(current := 0), false, true) else Turn(s.(current := k), false, false)
  }

  function StayTurn(s: Table): Turn
    requires s.current < |s.players|
  {
    if s.current == 0 then Turn(s, false, false) else NextTurn(AfterHold(s))
  }

  /**
   What the source demands of a request: the name of a bet is seated (its pending request is
   kept by seat number), other requests have a seat at turn, be it the dealer's, and the shoe
   has a card to draw.
   */
  predicate CanTurn(s: Table, r: Request) {
    match r
    case Bet(name, _) => FindPlayer(s.players, name) >= 0
    case Insure(_, _) => true
    case Hit => s.current < |s.players| && s.shoe != []
    case DoubleDown => s.current < |s.players| && (MayDouble(s) ==> s.shoe != [])
    case Stay => s.current < |s.players|
  }

  /** A bet deals when it is the last one; the dealer plays at once when the turn is behind the last seat. */
  function BetTurn(t: Table): Turn {
    if t.betsMade == |t.players| - 1 then Turn(t, true, false)
    else if t.current == |t.players| then Turn(t.(current := 0), false, true)
    else Turn(t, false, false)
  }

  function TurnOf(s: Table, r: Request): Turn
    requires CanTurn(s, r)
  {
    match r
    case Bet(name, amount) => BetTurn(AfterBet(s, FindPlayer(s.players, name), amount))
    case Insure(name, amount) =>
      var idx := FindPlayer(s.players, name);
      Turn(if idx > 0 && MayInsure(s, idx) then AfterInsure(s, idx, amount) else s, false, false)
    case Hit =>
      var t := WithCurrentCard(s);
      var state := t.players[t.current].hand.state;
      if state == BlackJack || state == Busted then StayTurn(t) else Turn(t, false, false)
    case DoubleDown => if MayDouble(s) then StayTurn(WithCurrentCard(Doubled(s))) else Turn(s, false, false)
    case Stay => StayTurn(s)
  }

  /** There are cards for the dealer's play if it follows on a deal. */
  predicate CanGoOn(s: Table) {
    s.current == |s.players| ==> CanFinish(s.(current := 0))
  }

  /** After a deal the dealer plays at once when the turn is behind the last seat. */
  function GoOn(s: Table): Table
    requires CanGoOn(s)
  {
    if s.current == |s.players| then DealerDeal(s.(current := 0)) else s
  }

  /** There are cards for what follows a turn. */
  predicate CanFollow(t: Turn) {
    && (t.deals ==> CanDeal(t.table) && CanGoOn(Deal(t.table)))
    && (t.finishes ==> CanFinish(t.table))
  }

  function Follow(t: Turn): Table
    requires CanFollow(t)
  {
    if t.deals then GoOn(Deal(t.table)) else if t.finishes then DealerDeal(t.table) else t.table
  }

  /** A request can be carried out. */
  predicate CanStep(s: Table, r: Request) {
    CanTurn(s, r) && CanFollow(TurnOf(s, r))
  }

  function Step(s: Table, r: Request): Table
    requires CanStep(s, r)
  {
    Follow(TurnOf(s, r))
  }
}
