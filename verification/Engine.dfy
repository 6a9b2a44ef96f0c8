/** The game object: the fields, the nested retry loops and the game loop, as the server runs them. */
module Engine {
  import opened Cards
  import opened Decks
  import opened Rules
  import opened Dialogue
  import opened GameLoop

  /**
   * How a method of a turn returns: committed, back to the first question, or by one of two failures: the player
   * was lost, or played an EMPTY card.
   */
  datatype Status = Done | Back | Lost | Broken

  /**
   * A method that was entered at a menu with unread answers input, and returned with unread answers rest, did
   * what the parse of input says: the parsed action was applied once, or nothing changed.
   */
  ghost predicate Refines(
    before: State, p: nat, menu: Menu, input: seq<int>,
    status: Status, after: State, rest: seq<int>)
    requires Shape(before) && p < before.numPlayers
  {
    var q := Parse(before, p, menu, input);
    match status
    case Done =>
      && q.outcome.Act?
      && Legal(before, p, q.outcome.action)
      && after == Apply(before, p, q.outcome.action)
      && rest == q.rest
    case Back => after == before && |rest| <= |input| && q == Parse(before, p, PickAction, rest)
    case Lost => after == before && q == Parsed(Ended, []) && rest == []
    case Broken => after == before && q == Parsed(PlaysEmpty, rest)
  }

  class Game {
    const players: seq<nat>
    const numPlayers: nat
    const cardsPerHand: nat
    var table: seq<int>
    const deck: Deck
    var hands: seq<seq<Card>>
    var discardPile: seq<Card>
    var numBlueTokens: int
    var numBlackFuseTokens: int

    /** The answers that each player is still going to send; a stream that runs out is a connection that is lost. */
    var inbox: seq<seq<int>>

    ghost predicate Valid()
      reads this, deck
    {
      && deck.Valid()
      && numPlayers == |players| >= 1
      && cardsPerHand == CardsPerHand(numPlayers)
      && |inbox| == numPlayers
      && Shape(View())
    }

    ghost function View(): State
      reads this, deck
    {
      State(numPlayers, deck.cards, deck.nextCardIndex, table, hands, discardPile, numBlueTokens, numBlackFuseTokens)
    }

    constructor (roster: seq<nat>, shuffled: seq<Card>, streams: seq<seq<int>>)
      requires |roster| >= 1 && |streams| == |roster| && IsShuffledDeck(shuffled)
      ensures deck.Valid() && fresh(deck) && deck.cards == shuffled && deck.nextCardIndex == 0
      ensures players == roster && numPlayers == |roster| && cardsPerHand == CardsPerHand(|roster|)
      ensures table == [0, 0, 0, 0, 0] && discardPile == [] && inbox == streams
    {
      players := roster;
      numPlayers := |roster|;
      table := seq(NUM_COLOURS, _ => 0);
      cardsPerHand := if |roster| <= 3 then 5 else 4;
      deck := new Deck(shuffled);
      hands := [];
      discardPile := [];
      numBlueTokens := 0;
      numBlackFuseTokens := 0;
      inbox := streams;
    }

    // ----- Questions

    /** Asks until the player answers within bounds; None is the exception of a failed read. */
    method RequestInt(lower: int, higher: int, p: nat) returns (r: Answer)
      requires p < |inbox|
      modifies this`inbox
      ensures r == FirstInRange(lower, higher, old(inbox[p]))
      ensures r.Answer? ==> lower <= r.value <= higher && |r.rest| < |old(inbox[p])|
      ensures inbox == old(inbox)[p := if r.Answer? then r.rest else []]
    {
      while true
        invariant |inbox| == |old(inbox)|
        invariant inbox == old(inbox)[p := inbox[p]] && |inbox[p]| <= |old(inbox[p])|
        invariant FirstInRange(lower, higher, inbox[p]) == FirstInRange(lower, higher, old(inbox[p]))
        decreases |inbox[p]|
      {
        if inbox[p] == [] {
          return NoAnswer;
        }
        var action := inbox[p][0];
        inbox := inbox[p := inbox[p][1..]];
        if !(action > higher || action < lower) {
          return Answer(action, inbox[p]);
        }
      }
    }

    method PlayCard(p: nat) returns (status: Status)
      requires Valid() && p < numPlayers
      modifies this, deck
      ensures Valid() && deck.cards == old(deck.cards)
      ensures |inbox| == |old(inbox)| && inbox == old(inbox)[p := inbox[p]]
      ensures Refines(old(View()), p, PickPlay, old(inbox[p]), status, View(), inbox[p])
    {
      ParseSkipsOutOfRange(View(), p, PickPlay, inbox[p]);
      var answer := RequestInt(-1, |hands[p]| - 1, p);
      if answer.NoAnswer? {
        return Lost;
      }
      var cardIndex := answer.value;
      if cardIndex == -1 {
        return Back;
      }
      var card := hands[p][cardIndex];
      if card.colour == EMPTY {
        return Broken;
      }
      var expectedCardNumber := table[Index(card.colour)] + 1;
      if expectedCardNumber == card.number {
        table := table[Index(card.colour) := card.number];
        var drawn := deck.Draw();
        hands := hands[p := hands[p][cardIndex := drawn]];
        if card.number == 5 && numBlueTokens < TOTAL_BLUE_TOKENS {
          numBlueTokens := numBlueTokens + 1;
        }
      } else {
        numBlackFuseTokens := numBlackFuseTokens - 1;
        discardPile := discardPile + [card];
      }
      return Done;
    }

    method DiscardCard(p: nat) returns (status: Status)
      requires Valid() && p < numPlayers
      modifies this, deck
      ensures Valid() && deck.cards == old(deck.cards)
      ensures |inbox| == |old(inbox)| && inbox == old(inbox)[p := inbox[p]]
      ensures Refines(old(View()), p, PickDiscard, old(inbox[p]), status, View(), inbox[p])
    {
      ParseSkipsOutOfRange(View(), p, PickDiscard, inbox[p]);
      var answer := RequestInt(-1, |hands[p]| - 1, p);
      if answer.NoAnswer? {
        return Lost;
      }
      var cardIndex := answer.value;
      if cardIndex == -1 {
        return Back;
      }
      var card := hands[p][cardIndex];
      numBlueTokens := numBlueTokens + 1;
      discardPile := discardPile + [card];
      var drawn := deck.Draw();
      hands := hands[p := hands[p][cardIndex := drawn]];
      return Done;
    }

    // ----- Hints

    /** The positions in a hand of the cards of a colour. */
    method TargetsOfColour(hand: seq<Card>, colour: Colour) returns (targets: seq<nat>)
      ensures forall j :: 0 <= j < |targets| ==> targets[j] < |hand| && hand[targets[j]].colour == colour
      ensures forall i :: 0 <= i < |hand| && hand[i].colour == colour ==> i in targets
    {
      targets := [];
      for i := 0 to |hand|
        invariant forall j :: 0 <= j < |targets| ==> targets[j] < i && hand[targets[j]].colour == colour
        invariant forall k :: 0 <= k < i && hand[k].colour == colour ==> k in targets
      {
        if hand[i].colour == colour {
          targets := targets + [i];
        }
      }
    }

    /** The positions in a hand of the cards with a number. */
    method TargetsOfNumber(hand: seq<Card>, number: int) returns (targets: seq<nat>)
      ensures forall j :: 0 <= j < |targets| ==> targets[j] < |hand| && hand[targets[j]].number == number
      ensures forall i :: 0 <= i < |hand| && hand[i].number == number ==> i in targets
    {
      targets := [];
      for i := 0 to |hand|
        invariant forall j :: 0 <= j < |targets| ==> targets[j] < i && hand[targets[j]].number == number
        invariant forall k :: 0 <= k < i && hand[k].number == number ==> k in targets
      {
        if hand[i].number == number {
          targets := targets + [i];
        }
      }
    }

    method ShowColour(t: nat, colour: Colour, targets: seq<nat>)
      requires t < |hands|
      requires forall j :: 0 <= j < |targets| ==> targets[j] < |hands[t]| && hands[t][targets[j]].colour == colour
      requires forall i :: 0 <= i < |hands[t]| && hands[t][i].colour == colour ==> i in targets
      modifies this`hands
      ensures hands == old(hands)[t := RevealColour(old(hands[t]), colour)]
    {
      ghost var hand := hands[t];
      for j := 0 to |targets|
        invariant |hands| == |old(hands)| && hands == old(hands)[t := hands[t]] && |hands[t]| == |hand|
        invariant forall i :: 0 <= i < |hand| ==>
                                hands[t][i] == if i in targets[..j] then hand[i].(colourRevealed := true) else hand[i]
      {
        var card := hands[t][targets[j]];
        hands := hands[t := hands[t][targets[j] := card.(colourRevealed := true)]];
        assert targets[..j + 1] == targets[..j] + [targets[j]];
      }
      assert targets[..|targets|] == targets;
      assert hands[t] == RevealColour(hand, colour);
    }

    method ShowNumber(t: nat, number: int, targets: seq<nat>)
      requires t < |hands|
      requires forall j :: 0 <= j < |targets| ==> targets[j] < |hands[t]| && hands[t][targets[j]].number == number
      requires forall i :: 0 <= i < |hands[t]| && hands[t][i].number == number ==> i in targets
      modifies this`hands
      ensures hands == old(hands)[t := RevealNumber(old(hands[t]), number)]
    {
      ghost var hand := hands[t];
      for j := 0 to |targets|
        invariant |hands| == |old(hands)| && hands == old(hands)[t := hands[t]] && |hands[t]| == |hand|
        invariant forall i :: 0 <= i < |hand| ==>
                                hands[t][i] == if i in targets[..j] then hand[i].(numberRevealed := true) else hand[i]
      {
        var card := hands[t][targets[j]];
        hands := hands[t := hands[t][targets[j] := card.(numberRevealed := true)]];
        assert targets[..j + 1] == targets[..j] + [targets[j]];
      }
      assert targets[..|targets|] == targets;
      assert hands[t] == RevealNumber(hand, number);
    }

    /** The colour branch of a hint. */
    method HintAColour(p: nat, t: nat) returns (status: Status)
      requires Valid() && p < numPlayers && t < numPlayers && t != p && numBlueTokens != 0
      modifies this
      ensures Valid()
      ensures |inbox| == |old(inbox)| && inbox == old(inbox)[p := inbox[p]]
      ensures Refines(old(View()), p, PickColour(t), old(inbox[p]), status, View(), inbox[p])
    {
      while true
        invariant Valid() && View() == old(View())
        invariant |inbox| == |old(inbox)| && inbox == old(inbox)[p := inbox[p]] && |inbox[p]| <= |old(inbox[p])|
        invariant Parse(View(), p, PickColour(t), inbox[p]) == Parse(View(), p, PickColour(t), old(inbox[p]))
        decreases |inbox[p]|
      {
        ParseSkipsOutOfRange(View(), p, PickColour(t), inbox[p]);
        var answer := RequestInt(-1, NUM_COLOURS - 1, p);
        if answer.NoAnswer? {
          return Lost;
        }
        var colourIndex := answer.value;
        if colourIndex == -1 {
          return Back;
        }
        var colour := ColourAt(colourIndex);
        var targets := TargetsOfColour(hands[t], colour);
        if targets != [] {
          assert hands[t][targets[0]].colour == colour;
          numBlueTokens := numBlueTokens - 1;
          ShowColour(t, colour, targets);
          return Done;
        }
      }
    }

    /** The number branch of a hint. */
    method HintANumber(p: nat, t: nat) returns (status: Status)
      requires Valid() && p < numPlayers && t < numPlayers && t != p && numBlueTokens != 0
      modifies this
      ensures Valid()
      ensures |inbox| == |old(inbox)| && inbox == old(inbox)[p := inbox[p]]
      ensures Refines(old(View()), p, PickNumber(t), old(inbox[p]), status, View(), inbox[p])
    {
      while true
        invariant Valid() && View() == old(View())
        invariant |inbox| == |old(inbox)| && inbox == old(inbox)[p := inbox[p]] && |inbox[p]| <= |old(inbox[p])|
        invariant Parse(View(), p, PickNumber(t), inbox[p]) == Parse(View(), p, PickNumber(t), old(inbox[p]))
        decreases |inbox[p]|
      {
        ParseSkipsOutOfRange(View(), p, PickNumber(t), inbox[p]);
        var answer := RequestInt(-1, 5, p);
        if answer.NoAnswer? {
          return Lost;
        }
        var number := answer.value;
        if number == 0 {
          continue;
        }
        if number == -1 {
          return Back;
        }
        var targets := TargetsOfNumber(hands[t], number);
        if targets != [] {
          assert hands[t][targets[0]].number == number;
          numBlueTokens := numBlueTokens - 1;
          ShowNumber(t, number, targets);
          return Done;
        }
      }
    }

    /** Asks for the player to hint to until it is somebody else, or for the way back. */
    method AskHintee(p: nat) returns (answer: Answer)
      requires Valid() && p < numPlayers
      modifies this`inbox
      ensures |inbox| == |old(inbox)| && inbox == old(inbox)[p := inbox[p]]
      ensures answer.NoAnswer? ==>
                inbox[p] == [] && Parse(View(), p, PickHintee, old(inbox[p])) == Parsed(Ended, [])
      ensures answer.Answer? ==>
                && answer.value != p && -1 <= answer.value < numPlayers && |inbox[p]| < |old(inbox[p])|
                && Parse(View(), p, PickHintee, old(inbox[p]))
                   == Parse(View(), p, if answer.value == -1 then PickAction else PickHintType(answer.value), inbox[p])
    {
      while true
        invariant Valid() && View() == old(View())
        invariant |inbox| == |old(inbox)| && inbox == old(inbox)[p := inbox[p]] && |inbox[p]| <= |old(inbox[p])|
        invariant Parse(View(), p, PickHintee, inbox[p]) == Parse(View(), p, PickHintee, old(inbox[p]))
        decreases |inbox[p]|
      {
        ParseSkipsOutOfRange(View(), p, PickHintee, inbox[p]);
        answer := RequestInt(-1, numPlayers - 1, p);
        if answer.NoAnswer? || answer.value != p {
          return;
        }
      }
    }

    method GiveHint(p: nat) returns (status: Status)
      requires Valid() && p < numPlayers
      modifies this
      ensures Valid()
      ensures |inbox| == |old(inbox)| && inbox == old(inbox)[p := inbox[p]]
      ensures Refines(old(View()), p, if old(numBlueTokens) == 0 then PickAction else PickHintee,
                      old(inbox[p]), status, View(), inbox[p])
    {
      if numBlueTokens == 0 {
        return Back;
      }
      var answer := AskHintee(p);
      if answer.NoAnswer? {
        return Lost;
      }
      var hintee := answer.value;
      if hintee == -1 {
        return Back;
      }
      ParseSkipsOutOfRange(View(), p, PickHintType(hintee), inbox[p]);
      answer := RequestInt(-1, 1, p);
      if answer.NoAnswer? {
        return Lost;
      }
      var hintType := answer.value;
      if hintType == -1 {
        return Back;
      }
      if hintType == 0 {
        status := HintAColour(p, hintee);
      } else {
        status := HintANumber(p, hintee);
      }
    }

    // ----- Turns

    method SelectAction(p: nat) returns (status: Status)
      requires Valid() && p < numPlayers
      modifies this, deck
      ensures Valid() && deck.cards == old(deck.cards)
      ensures |inbox| == |old(inbox)| && inbox == old(inbox)[p := inbox[p]]
      ensures status == Back ==> |inbox[p]| < |old(inbox[p])|
      ensures Refines(old(View()), p, PickAction, old(inbox[p]), status, View(), inbox[p])
    {
      ParseSkipsOutOfRange(View(), p, PickAction, inbox[p]);
      var answer := RequestInt(0, 2, p);
      if answer.NoAnswer? {
        return Lost;
      }
      match answer.value
      case 0 => status := PlayCard(p);
      case 1 => status := DiscardCard(p);
      case _ => status := GiveHint(p);
    }

    /**
     * One turn: for every stream of answers, the first complete action in it is applied once. If the stream ends
     * first, the state is the one in which the turn began.
     */
    method Turn(p: nat) returns (status: Status)
      requires Valid() && p < numPlayers
      modifies this, deck
      ensures Valid() && deck.cards == old(deck.cards)
      ensures status != Back
      ensures |inbox| == |old(inbox)| && inbox == old(inbox)[p := inbox[p]]
      ensures Refines(old(View()), p, PickAction, old(inbox[p]), status, View(), inbox[p])
    {
      while true
        invariant Valid() && View() == old(View())
        invariant |inbox| == |old(inbox)| && inbox == old(inbox)[p := inbox[p]] && |inbox[p]| <= |old(inbox[p])|
        invariant Parse(View(), p, PickAction, inbox[p]) == Parse(View(), p, PickAction, old(inbox[p]))
        decreases |inbox[p]|
      {
        status := SelectAction(p);
        if status != Back {
          return;
        }
      }
    }

    // ----- The game

    method Deal()
      requires deck.Valid() && deck.nextCardIndex == 0
      requires numPlayers >= 1 && cardsPerHand == CardsPerHand(numPlayers)
      modifies this`hands, deck`nextCardIndex
      ensures deck.Valid() && deck.nextCardIndex == Cursor(deck.cards, numPlayers * cardsPerHand)
      ensures hands == DealtHands(deck.cards, cardsPerHand, numPlayers)
    {
      hands := seq(numPlayers, _ => []);
      for i := 0 to numPlayers
        invariant deck.Valid() && |hands| == numPlayers
        invariant deck.nextCardIndex == Cursor(deck.cards, i * cardsPerHand)
        invariant forall q :: 0 <= q < i ==> hands[q] == DealtHand(deck.cards, cardsPerHand, q)
        invariant forall q :: i <= q < numPlayers ==> hands[q] == []
      {
        for j := 0 to cardsPerHand
          invariant deck.Valid() && |hands| == numPlayers
          invariant deck.nextCardIndex == Cursor(deck.cards, i * cardsPerHand + j)
          invariant forall q :: 0 <= q < i ==> hands[q] == DealtHand(deck.cards, cardsPerHand, q)
          invariant hands[i] == DealtHand(deck.cards, cardsPerHand, i)[..j]
          invariant forall q :: i < q < numPlayers ==> hands[q] == []
        {
          ghost var whole := DealtHand(deck.cards, cardsPerHand, i);
          ghost var nth: nat := i * cardsPerHand + j;
          assert whole[j] == CardAt(deck.cards, nth) == CardAt(deck.cards, Cursor(deck.cards, nth));
          var card := deck.Draw();
          assert card == whole[j] && whole[..j + 1] == whole[..j] + [whole[j]];
          hands := hands[i := hands[i] + [card]];
        }
        DealtSplits(deck.cards, cardsPerHand, i);
      }
    }

    method TotalPoints() returns (totalPts: int)
      requires |table| == NUM_COLOURS
      ensures totalPts == Score(table)
    {
      totalPts := 0;
      for i := 0 to NUM_COLOURS
        invariant totalPts == (if i > 0 then table[0] else 0) + (if i > 1 then table[1] else 0)
                              + (if i > 2 then table[2] else 0) + (if i > 3 then table[3] else 0)
                              + (if i > 4 then table[4] else 0)
      {
        totalPts := totalPts + table[i];
      }
    }

    /** The deal and the game loop, without the early return after the first turn. */
    method Start() returns (end: End, ghost trace: seq<Action>)
      requires deck.Valid() && deck.nextCardIndex == 0
      requires numPlayers == |players| >= 1 && cardsPerHand == CardsPerHand(numPlayers) && |inbox| == numPlayers
      requires table == [0, 0, 0, 0, 0] && discardPile == []
      modifies this, deck
      ensures Valid()
      ensures Result(end, View(), trace, inbox) == PlayOn(Rules.Start(numPlayers, old(deck.cards)), 0, old(inbox))
    {
      Deal();
      numBlueTokens := TOTAL_BLUE_TOKENS;
      numBlackFuseTokens := TOTAL_FUSE_TOKENS;
      ghost var s0 := Rules.Start(numPlayers, deck.cards);
      assert View() == s0;

      var totalPts := 0;
      var curPlayer: nat := 0;
      trace := [];
      while true
        invariant Valid() && curPlayer < numPlayers && deck.cards == old(deck.cards)
        invariant Prepend(trace, PlayOn(View(), curPlayer, inbox)) == PlayOn(s0, 0, old(inbox))
        decreases Unread(inbox)
      {
        ghost var s, before := View(), inbox;
        ghost var q := Parse(s, curPlayer, PickAction, inbox[curPlayer]);
        ghost var p := curPlayer;
        PlayOnTurn(s, p, before);
        ParseReadsAPrefix(s, p, PickAction, before[p], []);
        var status := Turn(curPlayer);
        assert inbox == before[p := q.rest];
        if status == Lost {
          PrependTwice(trace, [], PlayOn(s, p, before));
          return PlayerLost, trace;
        }
        if status == Broken {
          return EmptyPlayed, trace;
        }
        NextSeatIsModulo(curPlayer, numPlayers);
        curPlayer := (curPlayer + 1) % numPlayers;
        totalPts := TotalPoints();
        if totalPts != 25 && numBlackFuseTokens != 0 {
          PrependTwice(trace, [q.outcome.action], PlayOn(View(), curPlayer, inbox));
        }
        trace := trace + [q.outcome.action];
        if totalPts == 25 || numBlackFuseTokens == 0 {
          break;
        }
      }
      if totalPts == 25 {
        end := StacksComplete;
      } else {
        end := FusesGone;
      }
    }
  }
}
