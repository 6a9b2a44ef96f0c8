/** The game as values: what one committed action does, and what a run of actions does. */
module Rules {
  import opened Cards
  import opened Decks

  const TOTAL_BLUE_TOKENS := 8
  const TOTAL_FUSE_TOKENS := 3

  /** The fields of a game; next is the deck's cursor into cards. */
  datatype State = State(
    numPlayers: nat,
    cards: seq<Card>,
    next: nat,
    table: seq<int>,
    hands: seq<seq<Card>>,
    discardPile: seq<Card>,
    blue: int,
    fuses: int)

  datatype Action =
    | Play(slot: nat)
    | Discard(slot: nat)
    | HintColour(target: nat, colour: Colour)
    | HintNumber(target: nat, number: int)

  function CardsPerHand(numPlayers: int): nat {
    if numPlayers <= 3 then 5 else 4
  }

  predicate Shape(s: State) {
    && s.numPlayers >= 1
    && |s.hands| == s.numPlayers
    && |s.table| == NUM_COLOURS
    && s.next <= |s.cards|
  }

  function Score(table: seq<int>): int
    requires |table| == NUM_COLOURS
  {
    table[0] + table[1] + table[2] + table[3] + table[4]
  }

  predicate Over(s: State)
    requires Shape(s)
  {
    Score(s.table) == 25 || s.fuses == 0
  }

  // ----- The start of a game

  /** The first k cards that the deck deals. */
  function Dealt(cards: seq<Card>, k: nat): seq<Card> {
    seq(k, i requires 0 <= i < k => CardAt(cards, i))
  }

  function DealtHand(cards: seq<Card>, perHand: nat, player: nat): seq<Card> {
    seq(perHand, j requires 0 <= j < perHand => CardAt(cards, player * perHand + j))
  }

  function DealtHands(cards: seq<Card>, perHand: nat, players: nat): seq<seq<Card>> {
    seq(players, i requires 0 <= i < players => DealtHand(cards, perHand, i))
  }

  /** A further hand is dealt right behind those already dealt. */
  lemma DealtSplits(cards: seq<Card>, perHand: nat, players: nat)
    ensures players * perHand + perHand == (players + 1) * perHand
    ensures Dealt(cards, players * perHand + perHand)
            == Dealt(cards, players * perHand) + DealtHand(cards, perHand, players)
    ensures DealtHands(cards, perHand, players + 1)
            == DealtHands(cards, perHand, players) + [DealtHand(cards, perHand, players)]
  {
  }

  function Cursor(cards: seq<Card>, dealt: nat): nat {
    if dealt <= |cards| then dealt else |cards|
  }

  function Start(players: nat, cards: seq<Card>): State {
    var perHand := CardsPerHand(players);
    State(players, cards, Cursor(cards, players * perHand), [0, 0, 0, 0, 0],
          DealtHands(cards, perHand, players), [], TOTAL_BLUE_TOKENS, TOTAL_FUSE_TOKENS)
  }

  // ----- One action

  predicate HasColour(hand: seq<Card>, colour: Colour) {
    exists i :: 0 <= i < |hand| && hand[i].colour == colour
  }

  predicate HasNumber(hand: seq<Card>, number: int) {
    exists i :: 0 <= i < |hand| && hand[i].number == number
  }

  predicate Legal(s: State, p: nat, a: Action) {
    && Shape(s)
    && p < s.numPlayers
    && match a
       case Play(k) => k < |s.hands[p]| && s.hands[p][k].colour != EMPTY
       case Discard(k) => k < |s.hands[p]|
       case HintColour(t, c) => s.blue != 0 && t < s.numPlayers && t != p && c != EMPTY && HasColour(s.hands[t], c)
       case HintNumber(t, n) => s.blue != 0 && t < s.numPlayers && t != p && 1 <= n <= 5 && HasNumber(s.hands[t], n)
  }

  predicate Fits(s: State, card: Card)
    requires Shape(s) && card.colour != EMPTY
  {
    s.table[Index(card.colour)] + 1 == card.number
  }

  /** Replaces a card in a hand by the next card of the deck. */
  function Refill(s: State, p: nat, k: nat): State
    requires Shape(s) && p < s.numPlayers && k < |s.hands[p]|
  {
    s.(hands := s.hands[p := s.hands[p][k := CardAt(s.cards, s.next)]], next := Advance(s.cards, s.next))
  }

  function RevealColour(hand: seq<Card>, colour: Colour): seq<Card> {
    seq(|hand|, i requires 0 <= i < |hand| =>
      if hand[i].colour == colour then hand[i].(colourRevealed := true) else hand[i])
  }

  function RevealNumber(hand: seq<Card>, number: int): seq<Card> {
    seq(|hand|, i requires 0 <= i < |hand| =>
      if hand[i].number == number then hand[i].(numberRevealed := true) else hand[i])
  }

  function Apply(s: State, p: nat, a: Action): State
    requires Legal(s, p, a)
  {
    match a
    case Play(k) =>
      var card := s.hands[p][k];
      if Fits(s, card) then
        Refill(s, p, k).(
          table := s.table[Index(card.colour) := card.number],
          blue := if card.number == 5 && s.blue < TOTAL_BLUE_TOKENS then s.blue + 1 else s.blue)
      else
        s.(fuses := s.fuses - 1, discardPile := s.discardPile + [card])
    case Discard(k) =>
      Refill(s, p, k).(blue := s.blue + 1, discardPile := s.discardPile + [s.hands[p][k]])
    case HintColour(t, c) =>
      s.(blue := s.blue - 1, hands := s.hands[t := RevealColour(s.hands[t], c)])
    case HintNumber(t, n) =>
      s.(blue := s.blue - 1, hands := s.hands[t := RevealNumber(s.hands[t], n)])
  }

  // ----- Whose turn it is

  function NextSeat(p: nat, players: nat): (q: nat)
    requires p < players
    ensures q < players
  {
    if p + 1 == players then 0 else p + 1
  }

  /** The player on turn, going round from player 0. */
  function Seat(turn: nat, players: nat): (p: nat)
    requires players >= 1
    ensures p < players
  {
    if turn == 0 then 0 else NextSeat(Seat(turn - 1, players), players)
  }

  lemma ProductAtLeast(n: nat, d: int)
    requires n >= 1 && d >= 1
    ensures n * d >= n
  {
  }

  lemma RemainderIsUnique(x: nat, n: nat, quotient: int, remainder: nat)
    requires n >= 1 && x == n * quotient + remainder && remainder < n
    ensures x % n == remainder
  {
    var d := quotient - x / n;
    assert x == n * (x / n) + x % n;
    assert n * d == n * quotient - n * (x / n);
    if d >= 1 {
      ProductAtLeast(n, d);
    } else if d <= -1 {
      ProductAtLeast(n, -d);
    }
  }

  lemma NextSeatIsModulo(p: nat, players: nat)
    requires p < players
    ensures (p + 1) % players == NextSeat(p, players)
  {
    if p + 1 == players {
      RemainderIsUnique(p + 1, players, 1, 0);
    }
  }

  /** Turn t belongs to player t modulo the number of players. */
  lemma {:induction false} SeatIsModulo(turn: nat, players: nat)
    requires players >= 1
    ensures Seat(turn, players) == turn % players
    decreases turn
  {
    if turn == 0 {
      RemainderIsUnique(0, players, 0, 0);
    } else {
      SeatIsModulo(turn - 1, players);
      var quotient, p := (turn - 1) / players, (turn - 1) % players;
      assert turn - 1 == players * quotient + p;
      if p + 1 == players {
        assert players * (quotient + 1) == players * quotient + players;
        RemainderIsUnique(turn, players, quotient + 1, 0);
      } else {
        RemainderIsUnique(turn, players, quotient, p + 1);
      }
    }
  }

  // ----- Runs

  /** The state after the actions of trace, taken by the players in turn. */
  function After(s: State, trace: seq<Action>): State
    requires s.numPlayers >= 1
    ensures After(s, trace).numPlayers == s.numPlayers && After(s, trace).cards == s.cards
    ensures Shape(s) ==> Shape(After(s, trace))
  {
    if trace == [] then s
    else
      var n := |trace| - 1;
      var before := After(s, trace[..n]);
      if Legal(before, Seat(n, s.numPlayers), trace[n]) then Apply(before, Seat(n, s.numPlayers), trace[n]) else before
  }

  /** Every action of trace is legal when it is taken, and none is taken after the game is over. */
  ghost predicate IsRun(s: State, trace: seq<Action>) {
    && Shape(s)
    && forall i :: 0 <= i < |trace| ==> IsTurn(s, trace, i)
  }

  predicate IsTurn(s: State, trace: seq<Action>, i: nat)
    requires s.numPlayers >= 1 && i < |trace|
  {
    var before := After(s, trace[..i]);
    Legal(before, Seat(i, s.numPlayers), trace[i]) && !Over(before)
  }

  lemma RunPrefix(s: State, trace: seq<Action>, n: nat)
    requires IsRun(s, trace) && n <= |trace|
    ensures IsRun(s, trace[..n])
  {
    forall i | 0 <= i < n
      ensures IsTurn(s, trace[..n], i)
    {
      assert IsTurn(s, trace, i);
      assert trace[..n][..i] == trace[..i];
    }
  }

  /** The last turn of a run, taken apart. */
  lemma LastTurn(s: State, trace: seq<Action>)
    requires IsRun(s, trace) && trace != []
    ensures var n := |trace| - 1; var before := After(s, trace[..n]);
            && IsRun(s, trace[..n])
            && Legal(before, Seat(n, s.numPlayers), trace[n])
            && !Over(before)
            && After(s, trace) == Apply(before, Seat(n, s.numPlayers), trace[n])
  {
    RunPrefix(s, trace, |trace| - 1);
    assert IsTurn(s, trace, |trace| - 1);
  }

  /** Turn i of a run, as a step between the states before and after it. */
  lemma TurnAt(s: State, trace: seq<Action>, i: nat)
    requires IsRun(s, trace) && i < |trace|
    ensures Legal(After(s, trace[..i]), Seat(i, s.numPlayers), trace[i]) && !Over(After(s, trace[..i]))
    ensures After(s, trace[..i + 1]) == Apply(After(s, trace[..i]), Seat(i, s.numPlayers), trace[i])
  {
    assert IsTurn(s, trace, i);
    assert trace[..i + 1][..i] == trace[..i];
  }

  lemma RunExtend(s: State, trace: seq<Action>, a: Action)
    requires IsRun(s, trace)
    requires Legal(After(s, trace), Seat(|trace|, s.numPlayers), a) && !Over(After(s, trace))
    ensures IsRun(s, trace + [a])
    ensures After(s, trace + [a]) == Apply(After(s, trace), Seat(|trace|, s.numPlayers), a)
  {
    var longer := trace + [a];
    assert longer[..|trace|] == trace;
    forall i | 0 <= i < |longer|
      ensures IsTurn(s, longer, i)
    {
      if i < |trace| {
        assert IsTurn(s, trace, i);
        assert longer[..i] == trace[..i] && longer[i] == trace[i];
      } else {
        assert longer[..i] == trace && longer[i] == a;
      }
    }
  }
}
