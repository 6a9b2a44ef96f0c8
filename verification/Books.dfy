/** Book-keeping over whole runs: where every card is, and where every token went. */
module Books {
  import opened Cards
  import opened Decks
  import opened Rules

  // ----- The invariant of every reachable state

  predicate SoundCard(c: Card) {
    c.IsPrinted() || c == EMPTY_CARD
  }

  predicate SoundHand(s: State, hand: seq<Card>) {
    && |hand| == CardsPerHand(s.numPlayers)
    && forall k :: 0 <= k < |hand| ==> SoundCard(hand[k]) && (hand[k].colour == EMPTY ==> s.next == |s.cards|)
  }

  ghost predicate Sound(s: State) {
    && Shape(s)
    && IsShuffledDeck(s.cards)
    && (forall c :: 0 <= c < NUM_COLOURS ==> 0 <= s.table[c] <= 5)
    && (forall p :: 0 <= p < s.numPlayers ==> SoundHand(s, s.hands[p]))
    && s.blue >= 0
  }

  lemma DeckIsFresh(s: State)
    requires IsShuffledDeck(s.cards)
    ensures forall i :: 0 <= i < |s.cards| ==> s.cards[i].IsFresh()
  {
    ShuffledDeckContents(s.cards, EMPTY_FACE);
  }

  lemma DealtSlot(players: nat, cards: seq<Card>, p: nat, k: nat)
    requires p < players && k < CardsPerHand(players)
    ensures 0 <= p * CardsPerHand(players) + k < players * CardsPerHand(players)
  {
    var m := CardsPerHand(players);
    assert p * m + m == (p + 1) * m;
    assert (p + 1) * m <= players * m;
  }

  lemma StartIsSound(players: nat, cards: seq<Card>)
    requires players >= 1 && IsShuffledDeck(cards)
    ensures Sound(Start(players, cards)) && !Over(Start(players, cards))
  {
    var s := Start(players, cards);
    DeckIsFresh(s);
    forall p | 0 <= p < players
      ensures SoundHand(s, s.hands[p])
    {
      forall k | 0 <= k < |s.hands[p]|
        ensures SoundCard(s.hands[p][k]) && (s.hands[p][k].colour == EMPTY ==> s.next == |s.cards|)
      {
        DealtSlot(players, cards, p, k);
        var nth := p * CardsPerHand(players) + k;
        assert s.hands[p][k] == CardAt(cards, nth);
      }
    }
  }

  /** The state of some game right after the deal. */
  ghost predicate IsDeal(s: State) {
    s.numPlayers >= 1 && IsShuffledDeck(s.cards) && s == Start(s.numPlayers, s.cards)
  }

  lemma DealIsSound(s: State)
    requires IsDeal(s)
    ensures Sound(s) && !Over(s)
  {
    StartIsSound(s.numPlayers, s.cards);
  }

  lemma ApplyKeepsSound(s: State, p: nat, a: Action)
    requires Sound(s) && Legal(s, p, a)
    ensures Sound(Apply(s, p, a))
  {
    DeckIsFresh(s);
    var t := Apply(s, p, a);
    forall q | 0 <= q < t.numPlayers
      ensures SoundHand(t, t.hands[q])
    {
      assert SoundHand(s, s.hands[q]);
    }
  }

  // ----- Where the cards are

  function CountHands(hands: seq<seq<Card>>, kind: Kind): nat {
    if hands == [] then 0 else CountHands(hands[..|hands| - 1], kind) + Count(hands[|hands| - 1], kind)
  }

  lemma {:induction false} CountHandsUpdate(hands: seq<seq<Card>>, p: nat, hand: seq<Card>, kind: Kind)
    requires p < |hands|
    ensures CountHands(hands[p := hand], kind) + Count(hands[p], kind) == CountHands(hands, kind) + Count(hand, kind)
  {
    var n := |hands| - 1;
    if p == n {
      assert hands[p := hand][..n] == hands[..n];
    } else {
      CountHandsUpdate(hands[..n], p, hand, kind);
      assert hands[p := hand][..n] == hands[..n][p := hand];
    }
  }

  /** Whether the stacks on the table, cards 1 to table[c] of each colour c, hold the card with this face. */
  function OnTable(table: seq<int>, face: Face): nat
    requires |table| == NUM_COLOURS
  {
    if face.colour != EMPTY && 1 <= face.number <= table[Index(face.colour)] then 1 else 0
  }

  /** How many cards of a face are undrawn, in a hand or on the table. */
  function InPlay(s: State, face: Face): nat
    requires Shape(s)
  {
    Count(s.cards[s.next..], OfFace(face)) + CountHands(s.hands, OfFace(face)) + OnTable(s.table, face)
  }

  lemma {:induction false} CountRevealed(hand: seq<Card>, shown: seq<Card>, kind: Kind)
    requires |hand| == |shown|
    requires forall i :: 0 <= i < |hand| ==> Weight(hand[i], kind) == Weight(shown[i], kind)
    ensures Count(shown, kind) == Count(hand, kind)
  {
    if hand != [] {
      CountRevealed(hand[1..], shown[1..], kind);
    }
  }

  lemma DrawMovesOneCard(cards: seq<Card>, next: nat, kind: Kind)
    requires next <= |cards|
    ensures Count(cards[next..], kind) + (if next == |cards| then Weight(EMPTY_CARD, kind) else 0)
            == Weight(CardAt(cards, next), kind) + Count(cards[Advance(cards, next)..], kind)
  {
    if next < |cards| {
      assert cards[next..][1..] == cards[next + 1..];
    }
  }

  lemma RefillMovesCards(s: State, p: nat, k: nat, kind: Kind)
    requires Shape(s) && p < s.numPlayers && k < |s.hands[p]|
    ensures var t := Refill(s, p, k);
            Count(t.cards[t.next..], kind) + CountHands(t.hands, kind) + Weight(s.hands[p][k], kind)
            == Count(s.cards[s.next..], kind) + CountHands(s.hands, kind)
               + (if s.next == |s.cards| then Weight(EMPTY_CARD, kind) else 0)
  {
    var drawn := CardAt(s.cards, s.next);
    DrawMovesOneCard(s.cards, s.next, kind);
    CountUpdate(s.hands[p], k, drawn, kind);
    CountHandsUpdate(s.hands, p, s.hands[p][k := drawn], kind);
  }

  predicate Succeeds(s: State, p: nat, a: Action)
    requires Legal(s, p, a)
  {
    a.Play? && Fits(s, s.hands[p][a.slot])
  }

  predicate DrawsACard(s: State, p: nat, a: Action)
    requires Legal(s, p, a)
  {
    a.Discard? || Succeeds(s, p, a)
  }

  /** The only card that leaves play is the one discarded, and the only card that enters it is an EMPTY one. */
  lemma ApplyConserves(s: State, p: nat, a: Action, face: Face)
    requires Sound(s) && Legal(s, p, a)
    ensures InPlay(Apply(s, p, a), face) + (if a.Discard? then Weight(s.hands[p][a.slot], OfFace(face)) else 0)
            == InPlay(s, face)
               + (if DrawsACard(s, p, a) && s.next == |s.cards| then Weight(EMPTY_CARD, OfFace(face)) else 0)
  {
    match a
    case Play(k) =>
      assert SoundHand(s, s.hands[p]);
      if Fits(s, s.hands[p][k]) {
        RefillMovesCards(s, p, k, OfFace(face));
      }
    case Discard(k) =>
      RefillMovesCards(s, p, k, OfFace(face));
    case HintColour(t, c) =>
      CountRevealed(s.hands[t], RevealColour(s.hands[t], c), OfFace(face));
      CountHandsUpdate(s.hands, t, RevealColour(s.hands[t], c), OfFace(face));
    case HintNumber(t, n) =>
      CountRevealed(s.hands[t], RevealNumber(s.hands[t], n), OfFace(face));
      CountHandsUpdate(s.hands, t, RevealNumber(s.hands[t], n), OfFace(face));
  }

  // ----- The deal

  lemma {:induction false} DealtTakesTheFront(cards: seq<Card>, k: nat, kind: Kind)
    ensures Count(Dealt(cards, k), kind) + Count(cards[Cursor(cards, k)..], kind)
            == Count(cards, kind) + (k - Cursor(cards, k)) * Weight(EMPTY_CARD, kind)
  {
    if k == 0 {
      assert Dealt(cards, 0) == [] && cards[0..] == cards;
    } else {
      DealtTakesTheFront(cards, k - 1, kind);
      assert Dealt(cards, k) == Dealt(cards, k - 1) + [CardAt(cards, k - 1)];
      CountAppend(Dealt(cards, k - 1), CardAt(cards, k - 1), kind);
      DrawMovesOneCard(cards, Cursor(cards, k - 1), kind);
    }
  }

  lemma {:induction false} DealtHandsHoldTheFront(cards: seq<Card>, perHand: nat, players: nat, kind: Kind)
    ensures CountHands(DealtHands(cards, perHand, players), kind) == Count(Dealt(cards, players * perHand), kind)
  {
    var hands := DealtHands(cards, perHand, players);
    if players == 0 {
      assert Dealt(cards, 0) == [];
    } else {
      var n := players - 1;
      DealtHandsHoldTheFront(cards, perHand, n, kind);
      DealtSplits(cards, perHand, n);
      assert hands[..n] == DealtHands(cards, perHand, n);
      CountConcat(Dealt(cards, n * perHand), DealtHand(cards, perHand, n), kind);
    }
  }

  /** How many EMPTY cards the deal itself hands out. */
  function EmptyDealt(players: nat): nat {
    var dealt := players * CardsPerHand(players);
    if dealt <= TOTAL_CARDS then 0 else dealt - TOTAL_CARDS
  }

  lemma StartConserves(players: nat, cards: seq<Card>, face: Face)
    requires players >= 1 && IsShuffledDeck(cards)
    ensures InPlay(Start(players, cards), face)
            == Count(cards, OfFace(face)) + EmptyDealt(players) * Weight(EMPTY_CARD, OfFace(face))
  {
    var m := CardsPerHand(players);
    DealtHandsHoldTheFront(cards, m, players, OfFace(face));
    DealtTakesTheFront(cards, players * m, OfFace(face));
  }

  // ----- The ledger of a run

  /** What a run has done so far: the cards discarded on purpose and by misplay, and counts of events. */
  datatype Ledger = Ledger(
    voluntary: seq<Card>,
    misplayed: seq<Card>,
    emptyDraws: nat,
    plays: nat,
    hints: nat,
    discards: nat,
    emptyDiscards: nat,
    bonuses: nat)

  predicate EarnsBonus(s: State, p: nat, a: Action)
    requires Legal(s, p, a)
  {
    Succeeds(s, p, a) && s.hands[p][a.slot].number == 5 && s.blue < TOTAL_BLUE_TOKENS
  }

  function Enter(l: Ledger, s: State, p: nat, a: Action): Ledger
    requires Legal(s, p, a)
  {
    Ledger(
      l.voluntary + (if a.Discard? then [s.hands[p][a.slot]] else []),
      l.misplayed + (if a.Play? && !Succeeds(s, p, a) then [s.hands[p][a.slot]] else []),
      l.emptyDraws + (if DrawsACard(s, p, a) && s.next == |s.cards| then 1 else 0),
      l.plays + (if Succeeds(s, p, a) then 1 else 0),
      l.hints + (if a.HintColour? || a.HintNumber? then 1 else 0),
      l.discards + (if a.Discard? then 1 else 0),
      l.emptyDiscards + (if a.Discard? && s.hands[p][a.slot].colour == EMPTY then 1 else 0),
      l.bonuses + (if EarnsBonus(s, p, a) then 1 else 0))
  }

  function LedgerOf(s: State, trace: seq<Action>): Ledger
    requires s.numPlayers >= 1
  {
    if trace == [] then Ledger([], [], EmptyDealt(s.numPlayers), 0, 0, 0, 0, 0)
    else
      var n := |trace| - 1;
      var before := After(s, trace[..n]);
      var l := LedgerOf(s, trace[..n]);
      if Legal(before, Seat(n, s.numPlayers), trace[n]) then Enter(l, before, Seat(n, s.numPlayers), trace[n]) else l
  }

  lemma {:induction false} RunIsSound(s: State, trace: seq<Action>)
    requires Sound(s) && IsRun(s, trace)
    ensures Sound(After(s, trace))
    decreases |trace|
  {
    if trace != [] {
      LastTurn(s, trace);
      var n := |trace| - 1;
      RunIsSound(s, trace[..n]);
      ApplyKeepsSound(After(s, trace[..n]), Seat(n, s.numPlayers), trace[n]);
    }
  }

  /**
   * Card conservation. In every reachable state, for every face: the undrawn cards, the hands, the stacks and
   * the cards discarded on purpose are together the full set and one EMPTY card for each draw from an
   * exhausted deck.
   */
  lemma {:induction false} CardsAreConserved(s0: State, trace: seq<Action>, face: Face)
    requires IsDeal(s0) && IsRun(s0, trace)
    ensures var s := After(s0, trace); var l := LedgerOf(s0, trace);
            && InPlay(s, face) + Count(l.voluntary, OfFace(face))
               == CopiesOf(face) + (if face == EMPTY_FACE then l.emptyDraws else 0)
    decreases |trace|
  {
    DealIsSound(s0);
    if trace == [] {
      StartConserves(s0.numPlayers, s0.cards, face);
      ShuffledDeckContents(s0.cards, face);
    } else {
      var n := |trace| - 1;
      var p := Seat(n, s0.numPlayers);
      LastTurn(s0, trace);
      CardsAreConserved(s0, trace[..n], face);
      RunIsSound(s0, trace[..n]);
      var s, l := After(s0, trace[..n]), LedgerOf(s0, trace[..n]);
      ApplyConserves(s, p, trace[n], face);
      if trace[n].Discard? {
        CountAppend(l.voluntary, s.hands[p][trace[n].slot], OfFace(face));
      } else {
        assert LedgerOf(s0, trace).voluntary == l.voluntary;
      }
    }
  }

  /**
   * The discard pile holds the cards discarded on purpose and those misplayed, flags included, in some order.
   * Every fuse that is gone went with one misplay.
   */
  lemma {:induction false} DiscardPileIsExplained(s: State, trace: seq<Action>)
    requires s.discardPile == [] && s.fuses == TOTAL_FUSE_TOKENS && IsRun(s, trace)
    ensures var t := After(s, trace); var l := LedgerOf(s, trace);
            && multiset(t.discardPile) == multiset(l.voluntary) + multiset(l.misplayed)
            && |l.misplayed| == TOTAL_FUSE_TOKENS - t.fuses
            && |l.voluntary| == l.discards
            && 0 <= t.fuses <= TOTAL_FUSE_TOKENS
    decreases |trace|
  {
    if trace != [] {
      LastTurn(s, trace);
      DiscardPileIsExplained(s, trace[..|trace| - 1]);
    }
  }

  /** So it holds as many cards of any kind as the two together. */
  lemma {:induction false} DiscardPileCounts(s: State, trace: seq<Action>, kind: Kind)
    requires s.discardPile == [] && IsRun(s, trace)
    ensures var t := After(s, trace); var l := LedgerOf(s, trace);
            Count(t.discardPile, kind) == Count(l.voluntary, kind) + Count(l.misplayed, kind)
    decreases |trace|
  {
    if trace != [] {
      var n := |trace| - 1;
      var p, a := Seat(n, s.numPlayers), trace[n];
      LastTurn(s, trace);
      DiscardPileCounts(s, trace[..n], kind);
      var t, l := After(s, trace[..n]), LedgerOf(s, trace[..n]);
      if a.Play? || a.Discard? {
        var card := t.hands[p][a.slot];
        CountAppend(t.discardPile, card, kind);
        CountAppend(l.voluntary, card, kind);
        CountAppend(l.misplayed, card, kind);
      }
      assert a.Discard? || LedgerOf(s, trace).voluntary == l.voluntary;
      assert (a.Play? && !Succeeds(t, p, a)) || LedgerOf(s, trace).misplayed == l.misplayed;
    }
  }

  // ----- A misplayed card is in two places

  /** Turn i of the trace plays a card that does not fit its stack. */
  predicate Misplays(s: State, trace: seq<Action>, i: nat)
    requires s.numPlayers >= 1 && i < |trace|
  {
    var before, p := After(s, trace[..i]), Seat(i, s.numPlayers);
    trace[i].Play? && Legal(before, p, trace[i]) && !Succeeds(before, p, trace[i])
  }

  ghost predicate EveryPlayFits(s: State, trace: seq<Action>)
    requires s.numPlayers >= 1
  {
    forall i :: 0 <= i < |trace| ==> !Misplays(s, trace, i)
  }

  lemma FitsSplits(s: State, trace: seq<Action>)
    requires s.numPlayers >= 1 && trace != []
    ensures var n := |trace| - 1;
            EveryPlayFits(s, trace) <==> EveryPlayFits(s, trace[..n]) && !Misplays(s, trace, n)
  {
    var n := |trace| - 1;
    forall i | 0 <= i < n
      ensures Misplays(s, trace[..n], i) <==> Misplays(s, trace, i)
    {
      assert trace[..n][..i] == trace[..i];
    }
  }

  lemma {:induction false} NothingMisplayedIff(s: State, trace: seq<Action>)
    requires IsRun(s, trace)
    ensures LedgerOf(s, trace).misplayed == [] <==> EveryPlayFits(s, trace)
    decreases |trace|
  {
    if trace != [] {
      var n := |trace| - 1;
      LastTurn(s, trace);
      NothingMisplayedIff(s, trace[..n]);
      FitsSplits(s, trace);
    }
  }

  /** No card is counted twice: what is in play and the discard pile are the full set and the EMPTY cards drawn. */
  ghost predicate PileIsApart(s0: State, trace: seq<Action>)
    requires IsDeal(s0)
  {
    var s := After(s0, trace);
    forall face :: InPlay(s, face) + Count(s.discardPile, OfFace(face))
                   == CopiesOf(face) + (if face == EMPTY_FACE then LedgerOf(s0, trace).emptyDraws else 0)
  }

  /**
   * A misplayed card goes to the discard pile and stays in the hand. So the pile and the cards in play make up the
   * full set, without a card in both, if and only if every play so far fitted its stack.
   */
  lemma PileIsApartIff(s0: State, trace: seq<Action>)
    requires IsDeal(s0) && IsRun(s0, trace)
    ensures PileIsApart(s0, trace) <==> EveryPlayFits(s0, trace)
  {
    var s, l := After(s0, trace), LedgerOf(s0, trace);
    forall face
      ensures InPlay(s, face) + Count(s.discardPile, OfFace(face))
              == CopiesOf(face) + (if face == EMPTY_FACE then l.emptyDraws else 0) + Count(l.misplayed, OfFace(face))
    {
      CardsAreConserved(s0, trace, face);
      DiscardPileCounts(s0, trace, OfFace(face));
    }
    NothingMisplayedIff(s0, trace);
    if l.misplayed != [] {
      var face := l.misplayed[0].GetFace();
      CountBound(l.misplayed, 0, OfFace(face));
      assert InPlay(s, face) + Count(s.discardPile, OfFace(face))
             > CopiesOf(face) + (if face == EMPTY_FACE then l.emptyDraws else 0);
    }
  }

  /** A misplayed card enters the pile and is still in play. */
  lemma MisplayIsCountedTwice(s: State, p: nat, k: nat)
    requires Sound(s) && Legal(s, p, Play(k)) && !Succeeds(s, p, Play(k))
    ensures var t := Apply(s, p, Play(k)); var face := s.hands[p][k].GetFace();
            && InPlay(t, face) == InPlay(s, face)
            && Count(t.discardPile, OfFace(face)) == Count(s.discardPile, OfFace(face)) + 1
  {
    var card := s.hands[p][k];
    CountAppend(s.discardPile, card, OfFace(card.GetFace()));
  }

  /** An opening play that does not fit, after which its face is counted once too often. */
  lemma OpeningMisplayOverlaps(s0: State, k: nat)
    requires IsDeal(s0) && k < CardsPerHand(s0.numPlayers)
    requires s0.hands[0][k].colour != EMPTY && s0.hands[0][k].number != 1
    ensures IsRun(s0, [Play(k)])
    ensures var s := After(s0, [Play(k)]); var face := s0.hands[0][k].GetFace();
            InPlay(s, face) + Count(s.discardPile, OfFace(face)) == CopiesOf(face) + 1
  {
    var face := s0.hands[0][k].GetFace();
    DealIsSound(s0);
    RunExtend(s0, [], Play(k));
    assert [] + [Play(k)] == [Play(k)];
    MisplayIsCountedTwice(s0, 0, k);
    StartConserves(s0.numPlayers, s0.cards, face);
    ShuffledDeckContents(s0.cards, face);
  }

  /** Such an opening exists: two players and a deck in the order in which it was built. */
  lemma MisplayExample() returns (s0: State, trace: seq<Action>)
    ensures IsDeal(s0) && IsRun(s0, trace) && !PileIsApart(s0, trace)
  {
    var colours := NUM_COLOURS;
    UnshuffledDeck(colours);
    s0 := Start(2, Blocks(colours));
    assert s0.hands[0][3] == CardAt(s0.cards, 3);
    OpeningMisplayOverlaps(s0, 3);
    trace := [Play(3)];
    var face := s0.hands[0][3].GetFace();
    assert InPlay(After(s0, trace), face) + Count(After(s0, trace).discardPile, OfFace(face)) > CopiesOf(face);
  }
}
