/**
 The shoe of cpprest/Table.cpp: stacking the decks as numbers, exchanging them at random
 places and turning the numbers into cards. The random places are an arbitrary input.
 */
module BlackjackShoe {
  import opened Sequences
  import opened BlackjackHand

  // ---------- one deck as numbers ----------

  /** The number the source stores for place `i` of a deck: sixteen times the suit plus the face value. */
  function CodeAt(i: nat): nat {
    i / 13 * 16 + (i % 13 + 1)
  }

  function Deck(): (r: seq<nat>)
    ensures |r| == 52 && forall i :: 0 <= i < 52 ==> r[i] == CodeAt(i)
  {
    seq(52, i requires 0 <= i < 52 => CodeAt(i))
  }

  function Decks(n: nat): (r: seq<nat>)
    ensures |r| == 52 * n
  {
    if n == 0 then [] else Decks(n - 1) + Deck()
  }

  function CardOf(code: nat): Card {
    Card(code / 16, code % 16)
  }

  function CodeOf(c: Card): nat {
    c.suit * 16 + c.value
  }

  predicate IsCode(code: nat) {
    IsCard(CardOf(code))
  }

  /** The numbers stand for the cards one to one. */
  lemma CodesAreCards(c: Card, code: nat)
    ensures IsCard(c) ==> IsCode(CodeOf(c)) && CardOf(CodeOf(c)) == c
    ensures IsCode(code) ==> CodeOf(CardOf(code)) == code
  {
  }

  lemma CodeIsInDeck(code: nat)
    requires IsCode(code)
    ensures code in Deck()
  {
    var i := code / 16 * 13 + (code % 16 - 1);
    assert i / 13 == code / 16 && i % 13 == code % 16 - 1;
    assert Deck()[i] == CodeAt(i) == code;
  }

  lemma DeckHasCodes(i: nat)
    requires i < 52
    ensures IsCode(CodeAt(i))
  {
    assert CodeAt(i) / 16 == i / 13 && CodeAt(i) % 16 == i % 13 + 1;
  }

  lemma CodesDiffer(i: nat, j: nat)
    requires i < 52 && j < 52 && CodeAt(i) == CodeAt(j)
    ensures i == j
  {
    assert CodeAt(i) / 16 == i / 13 && CodeAt(j) / 16 == j / 13;
  }

  // ---------- counting ----------

  lemma {:induction false} DistinctCount<T>(s: seq<T>, x: T)
    requires forall i, j :: 0 <= i < j < |s| ==> s[i] != s[j]
    ensures multiset(s)[x] == if x in s then 1 else 0
    decreases |s|
  {
    if s != [] {
      var n := |s| - 1;
      DistinctCount(s[..n], x);
      SnocLast(s);
      assert multiset(s) == multiset(s[..n]) + multiset{s[n]};
    }
  }

  lemma DeckCount(code: nat)
    ensures multiset(Deck())[code] == if IsCode(code) then 1 else 0
  {
    var deck := Deck();
    forall i, j | 0 <= i < j < |deck| ensures deck[i] != deck[j] {
      if CodeAt(i) == CodeAt(j) { CodesDiffer(i, j); }
    }
    DistinctCount(deck, code);
    if IsCode(code) { CodeIsInDeck(code); }
    if code in deck {
      var i :| 0 <= i < |deck| && deck[i] == code;
      DeckHasCodes(i);
    }
  }

  lemma {:induction false} DecksCount(n: nat, code: nat)
    ensures multiset(Decks(n))[code] == if IsCode(code) then n else 0
    decreases n
  {
    if n > 0 {
      DecksCount(n - 1, code);
      DeckCount(code);
      assert multiset(Decks(n)) == multiset(Decks(n - 1)) + multiset(Deck());
    }
  }

  function CardsOf(codes: seq<nat>): (r: seq<Card>)
    ensures |r| == |codes| && forall i :: 0 <= i < |codes| ==> r[i] == CardOf(codes[i])
  {
    seq(|codes|, i requires 0 <= i < |codes| => CardOf(codes[i]))
  }

  lemma {:induction false} CardsCount(codes: seq<nat>, c: Card)
    requires forall k :: 0 <= k < |codes| ==> IsCode(codes[k])
    ensures multiset(CardsOf(codes))[c] == if IsCard(c) then multiset(codes)[CodeOf(c)] else 0
    decreases |codes|
  {
    if codes != [] {
      var n := |codes| - 1;
      CardsCount(codes[..n], c);
      SnocLast(codes);
      CodesAreCards(c, codes[n]);
      assert CardsOf(codes) == CardsOf(codes[..n]) + [CardOf(codes[n])];
      assert multiset(CardsOf(codes)) == multiset(CardsOf(codes[..n])) + multiset{CardOf(codes[n])};
      assert multiset(codes) == multiset(codes[..n]) + multiset{codes[n]};
    }
  }

  /** Every card of a deck is there as often as there are decks, and nothing else is. */
  ghost predicate IsShoe(cards: seq<Card>, decks: nat) {
    forall c :: multiset(cards)[c] == if IsCard(c) then decks else 0
  }

  /** Any rearrangement of the stacked decks decodes to a full shoe. */
  lemma ShuffledIsShoe(codes: seq<nat>, decks: nat)
    requires multiset(codes) == multiset(Decks(decks))
    ensures IsShoe(CardsOf(codes), decks) && AreCards(CardsOf(codes))
  {
    forall k | 0 <= k < |codes| ensures IsCode(codes[k]) {
      assert codes[k] in multiset(codes);
      DecksCount(decks, codes[k]);
    }
    forall c ensures multiset(CardsOf(codes))[c] == if IsCard(c) then decks else 0 {
      CardsCount(codes, c);
      DecksCount(decks, CodeOf(c));
      CodesAreCards(c, 0);
    }
  }

  // ---------- exchanging ----------

  /** The source goes round the shoe four times. */
  const ROUNDS := 4

  function Swapped(s: seq<nat>, i: nat, j: nat): (r: seq<nat>)
    requires i < |s| && j < |s|
    ensures |r| == |s|
  {
    s[i := s[j]][j := s[i]]
  }

  /** The place whose turn it is in exchange `k`: the source goes through them in order, round after round. */
  function PlaceOf(k: nat, n: nat): (i: nat)
    requires n > 0
    ensures i < n
  {
    if k < n then k else PlaceOf(k - n, n)
  }

  predicate ArePlaces(places: seq<nat>, n: nat) {
    forall k :: 0 <= k < |places| ==> places[k] < n
  }

  /** What exchanges make of some numbers: each takes the place whose turn it is and the next of `places`. */
  function Exchanged(s: seq<nat>, places: seq<nat>): (r: seq<nat>)
    requires ArePlaces(places, |s|)
    ensures |r| == |s|
  {
    if places == [] then s
    else
      var k := |places| - 1;
      assert places[k] < |s|;
      Swapped(Exchanged(s, places[..k]), PlaceOf(k, |s|), places[k])
  }

  lemma SwapKeeps(s: seq<nat>, i: nat, j: nat)
    requires i < |s| && j < |s|
    ensures multiset(Swapped(s, i, j)) == multiset(s)
  {
  }

  /** Whatever the places, the same numbers are left. */
  lemma {:induction false} ExchangedKeeps(s: seq<nat>, places: seq<nat>)
    requires ArePlaces(places, |s|)
    ensures multiset(Exchanged(s, places)) == multiset(s)
    decreases |places|
  {
    hide Swapped, PlaceOf;
    if places != [] {
      var k := |places| - 1;
      ExchangedKeeps(s, places[..k]);
      assert places[k] < |s|;
      SwapKeeps(Exchanged(s, places[..k]), PlaceOf(k, |s|), places[k]);
    }
  }

  lemma ExchangedSnoc(s: seq<nat>, places: seq<nat>, p: nat)
    requires ArePlaces(places, |s|) && p < |s|
    ensures ArePlaces(places + [p], |s|)
    ensures Exchanged(s, places + [p]) == Swapped(Exchanged(s, places), PlaceOf(|places|, |s|), p)
  {
    hide Swapped, PlaceOf, Exchanged;
    TakeSnoc(places, p);
    LastExchange(s, places + [p]);
  }

  lemma LastExchange(s: seq<nat>, places: seq<nat>)
    requires ArePlaces(places, |s|) && places != []
    ensures var k := |places| - 1;
      places[k] < |s| && Exchanged(s, places) == Swapped(Exchanged(s, places[..k]), PlaceOf(k, |s|), places[k])
  {
    hide Swapped, PlaceOf;
  }

  lemma Cancel(a: multiset<nat>, x: multiset<nat>, y: multiset<nat>)
    requires a + x == a + y
    ensures x == y
  {
    forall n ensures x[n] == y[n] { assert (a + x)[n] == (a + y)[n]; }
  }

  /** Of what is not in its place yet, the number for place `i` is some one. */
  lemma FindNumber(now: seq<nat>, t: seq<nat>, i: nat) returns (p: nat)
    requires |now| == |t| && i < |t| && now[..i] == t[..i] && multiset(now) == multiset(t)
    ensures i <= p < |now| && now[p] == t[i]
  {
    assert now == now[..i] + now[i..] && t == t[..i] + t[i..];
    assert multiset(now) == multiset(now[..i]) + multiset(now[i..]);
    assert multiset(t) == multiset(t[..i]) + multiset(t[i..]);
    Cancel(multiset(t[..i]), multiset(now[i..]), multiset(t[i..]));
    assert t[i..][0] in multiset(t[i..]);
    assert t[i] in now[i..];
    var q :| 0 <= q < |now[i..]| && now[i..][q] == t[i];
    p := i + q;
  }

  lemma SwappedFront(s: seq<nat>, i: nat, p: nat)
    requires i <= p < |s|
    ensures Swapped(s, i, p)[..i + 1] == s[..i] + [s[p]]
  {
  }

  /** The first round can bring the numbers into any order. */
  lemma {:induction false} FirstRound(s: seq<nat>, t: seq<nat>, m: nat) returns (places: seq<nat>)
    requires multiset(s) == multiset(t) && |s| == |t| && m <= |s|
    ensures |places| == m && ArePlaces(places, |s|) && Exchanged(s, places)[..m] == t[..m]
    decreases m
  {
    hide Exchanged, Swapped;
    if m == 0 {
      places := [];
    } else {
      var before := FirstRound(s, t, m - 1);
      var now := Exchanged(s, before);
      ExchangedKeeps(s, before);
      var p := FindNumber(now, t, m - 1);
      places := before + [p];
      ExchangedSnoc(s, before, p);
      SwappedFront(now, m - 1, p);
      assert t[..m] == t[..m - 1] + [t[m - 1]];
    }
  }

  lemma SwappedWithItself(s: seq<nat>, i: nat)
    requires i < |s|
    ensures Swapped(s, i, i) == s
  {
  }

  /** After that every place can be exchanged with itself. */
  lemma {:induction false} IdleRounds(s: seq<nat>, places: seq<nat>, idle: nat) returns (all: seq<nat>)
    requires ArePlaces(places, |s|) && s != []
    ensures |all| == |places| + idle && ArePlaces(all, |s|) && Exchanged(s, all) == Exchanged(s, places)
    decreases idle
  {
    hide Exchanged, Swapped, PlaceOf;
    if idle == 0 {
      all := places;
    } else {
      var before := IdleRounds(s, places, idle - 1);
      var p := PlaceOf(|before|, |s|);
      all := before + [p];
      ExchangedSnoc(s, before, p);
      SwappedWithItself(Exchanged(s, before), p);
    }
  }

  /** The places bring the numbers into this order. */
  ghost predicate BringsAbout(s: seq<nat>, places: seq<nat>, t: seq<nat>) {
    |places| == ROUNDS * |s| && ArePlaces(places, |s|) && Exchanged(s, places) == t
  }

  /** The orders that can come out are exactly the rearrangements. */
  lemma OrderArisesIff(s: seq<nat>, t: seq<nat>)
    ensures multiset(s) == multiset(t) <==> exists places :: BringsAbout(s, places, t)
  {
    if multiset(s) == multiset(t) {
      assert |s| == |multiset(s)| == |multiset(t)| == |t|;
      var places := FirstRound(s, t, |s|);
      if s != [] { places := IdleRounds(s, places, 3 * |s|); }
      assert t[..|s|] == t && Exchanged(s, places)[..|s|] == Exchanged(s, places);
      assert BringsAbout(s, places, t);
    }
    forall places | BringsAbout(s, places, t) ensures multiset(s) == multiset(t) { ExchangedKeeps(s, places); }
  }

  lemma {:induction false} CodesCount(cards: seq<Card>, codes: seq<nat>, code: nat)
    requires |codes| == |cards| && AreCards(cards)
    requires forall k :: 0 <= k < |cards| ==> codes[k] == CodeOf(cards[k])
    ensures multiset(codes)[code] == if IsCode(code) then multiset(cards)[CardOf(code)] else 0
    decreases |cards|
  {
    if cards != [] {
      var n := |cards| - 1;
      CodesCount(cards[..n], codes[..n], code);
      SnocLast(cards);
      SnocLast(codes);
      CodesAreCards(cards[n], code);
      assert multiset(cards) == multiset(cards[..n]) + multiset{cards[n]};
      assert multiset(codes) == multiset(codes[..n]) + multiset{codes[n]};
    }
  }

  /** Every full shoe, in every order, can come out. */
  lemma EveryShoeArises(cards: seq<Card>, decks: nat)
    requires IsShoe(cards, decks)
    ensures exists places, codes :: BringsAbout(Decks(decks), places, codes) && CardsOf(codes) == cards
  {
    forall k | 0 <= k < |cards| ensures IsCard(cards[k]) { assert cards[k] in multiset(cards); }
    var codes := seq(|cards|, k requires 0 <= k < |cards| => CodeOf(cards[k]));
    forall k | 0 <= k < |cards| ensures CardOf(codes[k]) == cards[k] { CodesAreCards(cards[k], 0); }
    forall code: nat ensures multiset(codes)[code] == multiset(Decks(decks))[code] {
      CodesCount(cards, codes, code);
      DecksCount(decks, code);
    }
    assert multiset(Decks(decks)) == multiset(codes);
    OrderArisesIff(Decks(decks), codes);
    assert CardsOf(codes) == cards;
  }

  // ---------- filling the shoe ----------

  lemma CodeAtPlace(suit: nat, fv: nat)
    requires fv < 13
    ensures CodeAt(suit * 13 + fv) == suit * 16 + (fv + 1)
  {
  }

  lemma OneDeckMore(n: nat, s: seq<nat>, deck: seq<nat>)
    requires s == Decks(n) && |deck| == 52 && forall i :: 0 <= i < 52 ==> deck[i] == CodeAt(i)
    ensures s + deck == Decks(n + 1)
  {
    hide CodeAt;
    assert deck == Deck();
  }

  lemma NoDecks()
    ensures Decks(0) == []
  {
  }

  lemma SliceJoins(s: seq<nat>, i: nat, j: nat)
    requires i <= j <= |s|
    ensures s[..i] + s[i..j] == s[..j]
  {
  }

  /** The stacking loops: decks, suits, face values. */
  method StackDecks(decks: nat) returns (shoe: array<nat>)
    ensures fresh(shoe) && shoe[..] == Decks(decks)
  {
    hide CodeAt, Deck, Decks;
    shoe := new nat[decks * 52];
    NoDecks();
    for d := 0 to decks
      invariant shoe[..d * 52] == Decks(d)
    {
      for suit := 0 to 4
        invariant shoe[..d * 52] == Decks(d)
        invariant forall i :: 0 <= i < suit * 13 ==> shoe[d * 52 + i] == CodeAt(i)
      {
        for fv := 0 to 13
          invariant shoe[..d * 52] == Decks(d)
          invariant forall i :: 0 <= i < suit * 13 + fv ==> shoe[d * 52 + i] == CodeAt(i)
        {
          CodeAtPlace(suit, fv);
          shoe[d * 52 + suit * 13 + fv] := suit * 16 + (fv + 1);
        }
      }
      OneDeckMore(d, shoe[..d * 52], shoe[d * 52..(d + 1) * 52]);
      SliceJoins(shoe[..], d * 52, (d + 1) * 52);
    }
    assert shoe[..] == shoe[..decks * 52];
  }

  /** Behind a full number of rounds the places follow one another from the first. */
  lemma {:induction false} NextPlace(start: nat, n: nat, i: nat)
    requires i < n && PlaceOf(start, n) == 0
    ensures PlaceOf(start + i, n) == i && PlaceOf(start + n, n) == 0
    decreases start
  {
    if start >= n { NextPlace(start - n, n, i); }
  }

  lemma OneRoundLess(rounds: nat, n: nat)
    ensures (rounds + 1) * n == n + rounds * n
  {
  }

  /** The exchanges: `places` are the numbers the random generator gives, one for each place in each round. */
  method Shuffle(shoe: array<nat>, places: seq<nat>)
    requires |places| == ROUNDS * shoe.Length && ArePlaces(places, shoe.Length)
    modifies shoe
    ensures shoe[..] == Exchanged(old(shoe[..]), places)
  {
    hide Exchanged, Swapped, PlaceOf;
    var given := 0;
    if shoe.Length > 0 { FirstPlace(shoe.Length); }
    NoneExchanged(shoe[..]);
    for r := 0 to ROUNDS
      invariant given + (ROUNDS - r) * shoe.Length == |places| && (shoe.Length > 0 ==> PlaceOf(given, shoe.Length) == 0)
      invariant shoe[..] == Exchanged(old(shoe[..]), places[..given])
    {
      OneRoundLess(ROUNDS - r - 1, shoe.Length);
      ghost var start := given;
      for i := 0 to shoe.Length
        invariant given == start + i
        invariant shoe[..] == Exchanged(old(shoe[..]), places[..given])
      {
        NextPlace(start, shoe.Length, i);
        OneExchange(old(shoe[..]), places, given);
        Swap(shoe, i, places[given]);
        given := given + 1;
      }
      if shoe.Length > 0 { NextPlace(start, shoe.Length, 0); }
    }
    assert places[..given] == places;
  }

  lemma FirstPlace(n: nat)
    requires n > 0
    ensures PlaceOf(0, n) == 0
  {
  }

  lemma NoneExchanged(s: seq<nat>)
    ensures Exchanged(s, []) == s
  {
  }

  lemma OneExchange(s: seq<nat>, places: seq<nat>, k: nat)
    requires ArePlaces(places, |s|) && k < |places|
    ensures s != [] && places[k] < |s|
    ensures Exchanged(s, places[..k + 1]) == Swapped(Exchanged(s, places[..k]), PlaceOf(k, |s|), places[k])
  {
    hide Exchanged, Swapped, PlaceOf;
    assert places[k] < |s|;
    assert places[..k + 1] == places[..k] + [places[k]];
    ExchangedSnoc(s, places[..k], places[k]);
  }

  method Swap(shoe: array<nat>, i: nat, other: nat)
    requires i < shoe.Length && other < shoe.Length
    modifies shoe
    ensures shoe[..] == Swapped(old(shoe[..]), i, other)
  {
    shoe[i], shoe[other] := shoe[other], shoe[i];
  }

  /** cpprest/Table.cpp `FillShoe`: whatever the random places, a full shoe goes behind what is there. */
  method FillShoe(shoe: seq<Card>, decks: nat, places: seq<nat>) returns (filled: seq<Card>)
    requires |places| == ROUNDS * (decks * 52) && ArePlaces(places, decks * 52)
    ensures filled == shoe + CardsOf(Exchanged(Decks(decks), places))
    ensures filled[..|shoe|] == shoe && IsShoe(filled[|shoe|..], decks) && AreCards(filled[|shoe|..])
  {
    hide Exchanged, IsShoe, Decks;
    var codes := StackDecks(decks);
    Shuffle(codes, places);
    ExchangedKeeps(Decks(decks), places);
    ShuffledIsShoe(codes[..], decks);
    ghost var cards := CardsOf(codes[..]);
    filled := shoe;
    for i := 0 to codes.Length
      invariant filled == shoe + cards[..i]
    {
      filled := filled + [Card(codes[i] / 16, codes[i] % 16)];
      assert cards[..i + 1] == cards[..i] + [cards[i]];
    }
    assert cards[..codes.Length] == cards;
  }
}
