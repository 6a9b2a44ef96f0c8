/**
 * The rules of the game in the words of the table: colours, numbers and answers are written out, so that nothing
 * here rests on how the model numbers or sizes things.
 */
module Rulebook {
  import opened Cards
  import opened Decks
  import opened Rules
  import opened Books
  import opened Dialogue

  /** The answer that names a colour, which is also the place of its stack on the table. */
  predicate Numbered(i: int, c: Colour) {
    || (i == 0 && c == RED)
    || (i == 1 && c == BLUE)
    || (i == 2 && c == GREEN)
    || (i == 3 && c == YELLOW)
    || (i == 4 && c == WHITE)
  }

  // ----- The deck and the deal

  /** Fifty unrevealed cards; in each of the five colours three 1s, two each of 2, 3 and 4, and one 5. */
  lemma DeckInNumbers(cards: seq<Card>, i: int, c: Colour)
    requires IsShuffledDeck(cards) && Numbered(i, c)
    ensures |cards| == 50
    ensures forall d :: d in cards ==> d.colour != EMPTY && 1 <= d.number <= 5 && !d.colourRevealed && !d.numberRevealed
    ensures Count(cards, OfFace(Face(1, c))) == 3
    ensures Count(cards, OfFace(Face(2, c))) == 2
    ensures Count(cards, OfFace(Face(3, c))) == 2
    ensures Count(cards, OfFace(Face(4, c))) == 2
    ensures Count(cards, OfFace(Face(5, c))) == 1
  {
    ShuffledDeckContents(cards, Face(1, c));
    ShuffledDeckContents(cards, Face(2, c));
    ShuffledDeckContents(cards, Face(3, c));
    ShuffledDeckContents(cards, Face(4, c));
    ShuffledDeckContents(cards, Face(5, c));
  }

  /** The card that the deck deals as number i, counted from 0. */
  function NthDealt(cards: seq<Card>, i: nat): Card {
    if i < |cards| then cards[i] else Card(0, EMPTY, true, true)
  }

  /** Player after player gets five cards with up to three players and four with more, from the top of the deck. */
  lemma DealInNumbers(s: State, q: nat)
    requires IsDeal(s) && q < s.numPlayers
    ensures s.table == [0, 0, 0, 0, 0] && s.discardPile == [] && s.blue == 8 && s.fuses == 3
    ensures |s.hands| == s.numPlayers
    ensures s.numPlayers <= 3 ==>
              |s.hands[q]| == 5 && forall k: nat :: k < 5 ==> s.hands[q][k] == NthDealt(s.cards, q * 5 + k)
    ensures s.numPlayers >= 4 ==>
              |s.hands[q]| == 4 && forall k: nat :: k < 4 ==> s.hands[q][k] == NthDealt(s.cards, q * 4 + k)
    ensures (s.numPlayers == 2 ==> s.next == 10) && (s.numPlayers == 3 ==> s.next == 15)
    ensures (s.numPlayers == 4 ==> s.next == 16) && (s.numPlayers == 5 ==> s.next == 20)
  {
    var size := if s.numPlayers <= 3 then 5 else 4;
    assert s.hands[q] == DealtHand(s.cards, size, q);
    forall k: nat | k < size
      ensures s.hands[q][k] == NthDealt(s.cards, q * size + k)
    {
      assert s.hands[q][k] == CardAt(s.cards, q * size + k);
    }
  }

  /** And in every reachable state the hands still have that size. */
  lemma HandSizes(s0: State, trace: seq<Action>, q: nat)
    requires IsDeal(s0) && IsRun(s0, trace) && q < s0.numPlayers
    ensures |After(s0, trace).hands| == s0.numPlayers
    ensures |After(s0, trace).hands[q]| == if s0.numPlayers <= 3 then 5 else 4
  {
    DealIsSound(s0);
    RunIsSound(s0, trace);
    assert SoundHand(After(s0, trace), After(s0, trace).hands[q]);
  }

  // ----- Answers

  /** 0 and a slot play the card in it; an EMPTY card cannot be played. */
  lemma PlayIsAnswered(s: State, p: nat, k: nat, rest: seq<int>)
    requires Shape(s) && p < s.numPlayers && k < |s.hands[p]|
    ensures Parse(s, p, PickAction, [0, k] + rest)
            == Parsed(if s.hands[p][k].colour == EMPTY then PlaysEmpty else Act(Play(k)), rest)
  {
    assert ([0, k] + rest)[1..] == [k] + rest && ([k] + rest)[1..] == rest;
  }

  /** 1 and a slot discard the card in it, whatever it is. */
  lemma DiscardIsAnswered(s: State, p: nat, k: nat, rest: seq<int>)
    requires Shape(s) && p < s.numPlayers && k < |s.hands[p]|
    ensures Parse(s, p, PickAction, [1, k] + rest) == Parsed(Act(Discard(k)), rest)
  {
    assert ([1, k] + rest)[1..] == [k] + rest && ([k] + rest)[1..] == rest;
  }

  /** 2, a player, 0 and the number of a colour hint at it, if that player has it; else another colour is asked for. */
  lemma ColourHintIsAnswered(s: State, p: nat, t: nat, x: int, c: Colour, rest: seq<int>)
    requires Shape(s) && p < s.numPlayers && t < s.numPlayers && t != p && s.blue != 0 && Numbered(x, c)
    ensures Parse(s, p, PickAction, [2, t, 0, x] + rest)
            == if exists i :: 0 <= i < |s.hands[t]| && s.hands[t][i].colour == c
               then Parsed(Act(HintColour(t, c)), rest)
               else Parse(s, p, PickColour(t), rest)
  {
    HintIsSpelled(s, p, t, 0, PickColour(t), [x] + rest);
    assert [2, t, 0, x] + rest == [2, t, 0] + ([x] + rest) && ([x] + rest)[1..] == rest;
  }

  /** 2, a player, 1 and a number from 1 to 5 hint at it, if that player has it; else another number is asked for. */
  lemma NumberHintIsAnswered(s: State, p: nat, t: nat, n: int, rest: seq<int>)
    requires Shape(s) && p < s.numPlayers && t < s.numPlayers && t != p && s.blue != 0 && 1 <= n <= 5
    ensures Parse(s, p, PickAction, [2, t, 1, n] + rest)
            == if exists i :: 0 <= i < |s.hands[t]| && s.hands[t][i].number == n
               then Parsed(Act(HintNumber(t, n)), rest)
               else Parse(s, p, PickNumber(t), rest)
  {
    HintIsSpelled(s, p, t, 1, PickNumber(t), [n] + rest);
    assert [2, t, 1, n] + rest == [2, t, 1] + ([n] + rest) && ([n] + rest)[1..] == rest;
  }

  // ----- Actions

  /** The card in a slot is replaced by the top of the deck. */
  ghost predicate Redraws(s: State, t: State, p: nat, k: nat)
    requires p < |s.hands| && k < |s.hands[p]|
  {
    && t.hands == s.hands[p := s.hands[p][k := NthDealt(s.cards, s.next)]]
    && t.next == if s.next < |s.cards| then s.next + 1 else s.next
  }

  /**
   * A card one above its colour's stack goes onto it and is replaced, and a 5 brings a blue token back unless there
   * are 8; any other stays in the hand, is put on the discard pile and costs a fuse.
   */
  lemma PlayInWords(s: State, p: nat, k: nat, place: int)
    requires Legal(s, p, Play(k)) && Numbered(place, s.hands[p][k].colour)
    ensures var card, t := s.hands[p][k], Apply(s, p, Play(k));
            if card.number == s.table[place] + 1 then
              && t == s.(table := s.table[place := card.number], blue := t.blue, hands := t.hands, next := t.next)
              && t.blue == s.blue + (if card.number == 5 && s.blue < 8 then 1 else 0)
              && Redraws(s, t, p, k)
            else
              t == s.(fuses := s.fuses - 1, discardPile := s.discardPile + [card])
  {
  }

  /** A discarded card goes onto the pile, is replaced, and always brings a blue token. */
  lemma DiscardInWords(s: State, p: nat, k: nat)
    requires Legal(s, p, Discard(k))
    ensures var t := Apply(s, p, Discard(k));
            && t == s.(blue := s.blue + 1, hands := t.hands, next := t.next,
                       discardPile := s.discardPile + [s.hands[p][k]])
            && Redraws(s, t, p, k)
  {
  }

  /** A hint costs a blue token and turns up the flag of exactly the cards of that colour in that hand. */
  lemma ColourHintInWords(s: State, p: nat, t: nat, c: Colour)
    requires Legal(s, p, HintColour(t, c))
    ensures var u := Apply(s, p, HintColour(t, c));
            && u == s.(blue := s.blue - 1, hands := u.hands)
            && |u.hands| == |s.hands|
            && forall q :: 0 <= q < |s.hands| ==>
                 && |u.hands[q]| == |s.hands[q]|
                 && forall i :: 0 <= i < |s.hands[q]| ==>
                      var card := s.hands[q][i];
                      u.hands[q][i] == if q == t && card.colour == c then card.(colourRevealed := true) else card
  {
  }

  lemma NumberHintInWords(s: State, p: nat, t: nat, n: int)
    requires Legal(s, p, HintNumber(t, n))
    ensures var u := Apply(s, p, HintNumber(t, n));
            && u == s.(blue := s.blue - 1, hands := u.hands)
            && |u.hands| == |s.hands|
            && forall q :: 0 <= q < |s.hands| ==>
                 && |u.hands[q]| == |s.hands[q]|
                 && forall i :: 0 <= i < |s.hands[q]| ==>
                      var card := s.hands[q][i];
                      u.hands[q][i] == if q == t && card.number == n then card.(numberRevealed := true) else card
  {
  }

  /** A printed card of the hinted colour or number. */
  predicate IsHinted(c: Card, hint: Action)
    requires hint.HintColour? || hint.HintNumber?
  {
    && c.colour != EMPTY && 1 <= c.number <= 5
    && if hint.HintColour? then c.colour == hint.colour else c.number == hint.number
  }

  /** A hint that can be given is about at least one printed card of that hand. */
  lemma HintsAreAboutPrintedCards(s0: State, trace: seq<Action>, a: Action)
    requires IsDeal(s0) && IsRun(s0, trace) && (a.HintColour? || a.HintNumber?)
    requires Legal(After(s0, trace), Seat(|trace|, s0.numPlayers), a)
    ensures exists i :: 0 <= i < |After(s0, trace).hands[a.target]| && IsHinted(After(s0, trace).hands[a.target][i], a)
  {
    DealIsSound(s0);
    RunIsSound(s0, trace);
    var s := After(s0, trace);
    var hand := s.hands[a.target];
    assert SoundHand(s, hand);
    var i :| 0 <= i < |hand| && (if a.HintColour? then hand[i].colour == a.colour else hand[i].number == a.number);
    assert SoundCard(hand[i]) && hand[i] != EMPTY_CARD;
    assert IsHinted(hand[i], a);
  }

  // ----- Stacks

  /** The numbers of the cards of a colour that were played without the loss of a fuse, in the order of play. */
  function Played(s: State, trace: seq<Action>, c: Colour): seq<int>
    requires s.numPlayers >= 1
  {
    if trace == [] then []
    else
      var n := |trace| - 1;
      Played(s, trace[..n], c)
      + PlayedBy(After(s, trace[..n]), After(s, trace), Seat(n, s.numPlayers), trace[n], c)
  }

  /** The number of the card that a turn adds to the stack of a colour, if it does. */
  function PlayedBy(before: State, after: State, p: nat, a: Action, c: Colour): seq<int> {
    if Legal(before, p, a) && a.Play? && after.fuses == before.fuses && before.hands[p][a.slot].colour == c
    then [before.hands[p][a.slot].number] else []
  }

  function UpTo(n: nat): seq<int> {
    seq(n, i requires 0 <= i < n => i + 1)
  }

  /** One turn adds the next number to the stack of its colour, or leaves the stack alone. */
  lemma StackStep(s: State, p: nat, a: Action, place: nat, c: Colour)
    requires Sound(s) && Legal(s, p, a) && Numbered(place, c)
    ensures var t := Apply(s, p, a);
            && |t.table| == 5
            && 0 <= s.table[place] <= 5 && 0 <= t.table[place] <= 5
            && UpTo(t.table[place]) == UpTo(s.table[place]) + PlayedBy(s, t, p, a, c)
  {
    ApplyKeepsSound(s, p, a);
  }

  /** Every stack was built from 1 upwards, one card at a time, and its place shows the number on top. */
  lemma {:induction false} StacksAreBuiltInOrder(s0: State, trace: seq<Action>, place: nat, c: Colour)
    requires IsDeal(s0) && IsRun(s0, trace) && Numbered(place, c)
    ensures |After(s0, trace).table| == 5
    ensures var height := After(s0, trace).table[place];
            0 <= height <= 5 && Played(s0, trace, c) == UpTo(height)
    decreases |trace|
  {
    DealIsSound(s0);
    RunIsSound(s0, trace);
    if trace != [] {
      var n := |trace| - 1;
      LastTurn(s0, trace);
      RunIsSound(s0, trace[..n]);
      StacksAreBuiltInOrder(s0, trace[..n], place, c);
      StackStep(After(s0, trace[..n]), Seat(n, s0.numPlayers), trace[n], place, c);
    }
  }
}
