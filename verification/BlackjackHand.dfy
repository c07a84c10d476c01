/**
 Hands of cpprest/messagetypes.h: cards, their values with an ace as one or eleven, and the
 state a hand is in. Money is modelled by reals.
 */
module BlackjackHand {
  import opened Sequences

  /** The suit and the face value are the source's enumeration numbers. */
  datatype Card = Card(suit: nat, value: nat)

  const ACE := 1

  predicate IsCard(c: Card) {
    c.suit < 4 && 1 <= c.value <= 13
  }

  ghost predicate AreCards(cards: seq<Card>) {
    forall k :: 0 <= k < |cards| ==> IsCard(cards[k])
  }

  datatype HandState = Empty | BlackJack | Active | Held | Busted

  datatype HandResult = NoResult | PlayerBlackJack | PlayerWin | ComputerWin | Push

  datatype Hand = Hand(revealBoth: bool, cards: seq<Card>, bet: real, insurance: real, state: HandState,
    result: HandResult)

  const NEW_HAND := Hand(true, [], 0.0, 0.0, Empty, NoResult)

  // ---------- values ----------

  datatype Values = Values(low: int, high: int)

  function Best(v: Values): int {
    if v.high < 22 then v.high else v.low
  }

  function Points(c: Card): nat {
    if c.value < 10 then c.value else 10
  }

  function Low(cards: seq<Card>): nat {
    if cards == [] then 0 else Low(cards[..|cards| - 1]) + Points(cards[|cards| - 1])
  }

  predicate HasAce(cards: seq<Card>) {
    exists k :: 0 <= k < |cards| && cards[k].value == ACE
  }

  function NumericValues(cards: seq<Card>): Values {
    Values(Low(cards), if HasAce(cards) then Low(cards) + 10 else Low(cards))
  }

  /** cpprest/messagetypes.h `GetNumericValues`. */
  method GetNumericValues(cards: seq<Card>) returns (v: Values)
    ensures v == NumericValues(cards)
  {
    var low := 0;
    var hasAces := false;
    for i := 0 to |cards|
      invariant low == Low(cards[..i])
      invariant hasAces <==> exists k :: 0 <= k < i && cards[k].value == ACE
    {
      if cards[i].value == ACE { hasAces := true; }
      assert cards[..i + 1][..i] == cards[..i];
      low := low + (if cards[i].value < 10 then cards[i].value else 10);
    }
    assert cards[..|cards|] == cards;
    v := Values(low, if hasAces then low + 10 else low);
  }

  // ---------- the value of a hand over all choices for its aces ----------

  /** An ace counts one or eleven, the pictures count ten, and every other card its number. */
  function Counted(c: Card, asEleven: bool): nat {
    if c.value == 1 then (if asEleven then 11 else 1) else if c.value > 10 then 10 else c.value
  }

  /** The total of a hand when the aces chosen count eleven and the others one. */
  function Total(cards: seq<Card>, elevens: set<nat>): nat {
    if cards == [] then 0
    else
      var n := |cards| - 1;
      Total(cards[..n], elevens) + Counted(cards[n], n in elevens)
  }

  /** `best` is the largest total not above 21, or the least total when all are above. */
  ghost predicate IsBest(cards: seq<Card>, best: int) {
    && (exists elevens :: Total(cards, elevens) == best)
    && (forall elevens :: Total(cards, elevens) <= 21 ==> Total(cards, elevens) <= best <= 21)
    && ((forall elevens :: Total(cards, elevens) > 21) ==> forall elevens :: best <= Total(cards, elevens))
  }

  lemma {:induction false} TotalWithout(cards: seq<Card>, elevens: set<nat>)
    requires forall k :: 0 <= k < |cards| && k in elevens ==> cards[k].value != ACE
    ensures Total(cards, elevens) == Low(cards)
    decreases |cards|
  {
    if cards != [] { TotalWithout(cards[..|cards| - 1], elevens); }
  }

  lemma {:induction false} TotalWithOne(cards: seq<Card>, k: nat)
    requires k < |cards| && cards[k].value == ACE
    ensures Total(cards, {k}) == Low(cards) + 10
    decreases |cards|
  {
    var n := |cards| - 1;
    if k == n { TotalWithout(cards[..n], {k}); } else { TotalWithOne(cards[..n], k); }
  }

  /** Any total is the low one, or the high one, or at least twenty-two. */
  lemma {:induction false} TotalIs(cards: seq<Card>, elevens: set<nat>)
    ensures var t := Total(cards, elevens);
      t == Low(cards) || (HasAce(cards) && (t == Low(cards) + 10 || (t >= Low(cards) + 20 && Low(cards) >= 2)))
    ensures Total(cards, elevens) > Low(cards) ==> Low(cards) >= 1
    decreases |cards|
  {
    if cards != [] {
      var n := |cards| - 1;
      TotalIs(cards[..n], elevens);
      if HasAce(cards[..n]) {
        var k :| 0 <= k < n && cards[..n][k].value == ACE;
        assert cards[k].value == ACE;
      }
    }
  }

  /** `Best` is the best value of the hand over every choice of one or eleven for each of its aces. */
  lemma BestIsBest(cards: seq<Card>, best: int)
    ensures IsBest(cards, best) <==> best == Best(NumericValues(cards))
  {
    var low := Low(cards);
    TotalWithout(cards, {});
    forall elevens
      ensures Total(cards, elevens) == low || (HasAce(cards)
        && (Total(cards, elevens) == low + 10 || Total(cards, elevens) >= 22))
      ensures Total(cards, elevens) >= low
    {
      TotalIs(cards, elevens);
    }
    if HasAce(cards) {
      var k :| 0 <= k < |cards| && cards[k].value == ACE;
      TotalWithOne(cards, k);
      assert Total(cards, {k}) == low + 10;
    }
    assert Total(cards, {}) == low;
  }

  // ---------- changing a hand ----------

  /** The hand after `BJHand::Clear`: the bet stays, and what is revealed. */
  function Cleared(h: Hand): Hand {
    h.(cards := [], state := Empty, result := NoResult, insurance := 0.0)
  }

  function StateOf(cards: seq<Card>): HandState {
    if |cards| == 2 && NumericValues(cards).high == 21 then BlackJack
    else if NumericValues(cards).low > 21 then Busted
    else Active
  }

  /** The hand after `BJHand::AddCard`. */
  function WithCard(h: Hand, c: Card): Hand {
    h.(cards := h.cards + [c], state := StateOf(h.cards + [c]))
  }

  lemma LowSnoc(cards: seq<Card>, c: Card)
    ensures Low(cards + [c]) == Low(cards) + Points(c)
  {
    TakeSnoc(cards, c);
  }

  lemma LowOfTwo(cards: seq<Card>)
    requires |cards| == 2
    ensures Low(cards) == Points(cards[0]) + Points(cards[1])
  {
    assert cards[..1] == [] + [cards[0]];
    LowSnoc([], cards[0]);
  }

  /**
   A hand is busted exactly when no choice for its aces stays within 21, and has a black jack exactly
   when two cards make 21.
   */
  lemma StateMeans(h: Hand, c: Card)
    ensures var cards := h.cards + [c];
      && (WithCard(h, c).state == Busted <==> forall elevens :: Total(cards, elevens) > 21)
      && (WithCard(h, c).state == BlackJack <==> |cards| == 2 && IsBest(cards, 21))
  {
    var cards := h.cards + [c];
    BestIsBest(cards, 21);
    TotalWithout(cards, {});
    forall elevens ensures Total(cards, elevens) >= Low(cards) { TotalIs(cards, elevens); }
    if |cards| == 2 { LowOfTwo(cards); }
  }
}
