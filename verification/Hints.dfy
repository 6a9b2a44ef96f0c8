/** Reveal flags as a record of the hints given, and what a player's own hand tells. */
module Hints {
  import opened Cards
  import opened Decks
  import opened Rules
  import opened Books
  import opened Wrappers

  /** Turn i of the trace puts a new card into slot k of player p; a misplay does not. */
  predicate Refills(s: State, trace: seq<Action>, i: nat, p: nat, k: nat)
    requires s.numPlayers >= 1 && i < |trace|
  {
    var before := After(s, trace[..i]);
    RefillsNow(before, Seat(i, s.numPlayers), trace[i], p, k)
  }

  predicate RefillsNow(s: State, turn: nat, a: Action, p: nat, k: nat) {
    && Legal(s, turn, a)
    && turn == p
    && DrawsACard(s, turn, a)
    && a.slot == k
  }

  /** No turn after j has filled the slot. */
  ghost predicate KeptSince(s: State, trace: seq<Action>, j: nat, p: nat, k: nat)
    requires s.numPlayers >= 1
  {
    forall i :: j < i < |trace| ==> !Refills(s, trace, i, p, k)
  }

  /** The trace holds the given hint, and the slot still holds the card that it held then. */
  ghost predicate HintedSinceFilled(s: State, trace: seq<Action>, p: nat, k: nat, hint: Action)
    requires s.numPlayers >= 1
  {
    exists j :: 0 <= j < |trace| && trace[j] == hint && KeptSince(s, trace, j, p, k)
  }

  lemma KeptSplits(s: State, trace: seq<Action>, j: nat, p: nat, k: nat)
    requires s.numPlayers >= 1 && j + 1 < |trace|
    ensures var n := |trace| - 1;
            KeptSince(s, trace, j, p, k) <==> KeptSince(s, trace[..n], j, p, k) && !Refills(s, trace, n, p, k)
  {
    var n := |trace| - 1;
    forall i | j < i < n
      ensures Refills(s, trace[..n], i, p, k) <==> Refills(s, trace, i, p, k)
    {
      assert trace[..n][..i] == trace[..i];
    }
  }

  lemma HintedSplits(s: State, trace: seq<Action>, p: nat, k: nat, hint: Action)
    requires s.numPlayers >= 1 && trace != []
    ensures var n := |trace| - 1;
            HintedSinceFilled(s, trace, p, k, hint)
            <==> trace[n] == hint || (!Refills(s, trace, n, p, k) && HintedSinceFilled(s, trace[..n], p, k, hint))
  {
    var n := |trace| - 1;
    if HintedSinceFilled(s, trace, p, k, hint) {
      var j :| 0 <= j < |trace| && trace[j] == hint && KeptSince(s, trace, j, p, k);
      if j < n {
        KeptSplits(s, trace, j, p, k);
        assert trace[..n][j] == hint;
      }
    }
    if trace[n] == hint {
      assert KeptSince(s, trace, n, p, k);
    } else if !Refills(s, trace, n, p, k) && HintedSinceFilled(s, trace[..n], p, k, hint) {
      var j :| 0 <= j < n && trace[..n][j] == hint && KeptSince(s, trace[..n], j, p, k);
      KeptSplits(s, trace, j, p, k);
      assert trace[j] == hint;
    }
  }

  /** What one action does to one slot. */
  lemma SlotStep(s: State, turn: nat, a: Action, p: nat, k: nat)
    requires Sound(s) && Legal(s, turn, a) && p < s.numPlayers && k < CardsPerHand(s.numPlayers)
    ensures SoundHand(s, s.hands[p]) && |Apply(s, turn, a).hands[p]| == |s.hands[p]|
    ensures var was, becomes := s.hands[p][k], Apply(s, turn, a).hands[p][k];
            if RefillsNow(s, turn, a, p, k) then
              becomes == CardAt(s.cards, s.next) && (becomes.IsFresh() || becomes == EMPTY_CARD)
            else
              && becomes.GetFace() == was.GetFace()
              && (becomes.colourRevealed <==> was.colourRevealed || a == HintColour(p, was.colour))
              && (becomes.numberRevealed <==> was.numberRevealed || a == HintNumber(p, was.number))
  {
    assert SoundHand(s, s.hands[p]);
    DeckIsFresh(s);
  }

  /**
   * The reveal flags replay the history: in every reachable state, a card shows its colour (number) if and only
   * if it is EMPTY or that colour (number) has been hinted to its holder since the slot was last filled.
   */
  lemma {:induction false} FlagsReplayTheHints(s0: State, trace: seq<Action>, p: nat, k: nat)
    requires IsDeal(s0) && IsRun(s0, trace)
    requires p < s0.numPlayers && k < CardsPerHand(s0.numPlayers)
    ensures var s := After(s0, trace);
            && k < |s.hands[p]|
            && var c := s.hands[p][k];
            && SoundCard(c)
            && (c.colourRevealed <==> c.colour == EMPTY || HintedSinceFilled(s0, trace, p, k, HintColour(p, c.colour)))
            && (c.numberRevealed <==> c.colour == EMPTY || HintedSinceFilled(s0, trace, p, k, HintNumber(p, c.number)))
    decreases |trace|
  {
    DealIsSound(s0);
    RunIsSound(s0, trace);
    assert SoundHand(After(s0, trace), After(s0, trace).hands[p]);
    if trace == [] {
      DeckIsFresh(s0);
      DealtSlot(s0.numPlayers, s0.cards, p, k);
      var nth := p * CardsPerHand(s0.numPlayers) + k;
      assert s0.hands[p][k] == CardAt(s0.cards, nth);
    } else {
      var n := |trace| - 1;
      LastTurn(s0, trace);
      FlagsReplayTheHints(s0, trace[..n], p, k);
      RunIsSound(s0, trace[..n]);
      SlotStep(After(s0, trace[..n]), Seat(n, s0.numPlayers), trace[n], p, k);
      var c := After(s0, trace).hands[p][k];
      HintedSplits(s0, trace, p, k, HintColour(p, c.colour));
      HintedSplits(s0, trace, p, k, HintNumber(p, c.number));
    }
  }

  // ----- What a hand tells its owner

  /** What the hints since a slot was filled, or its being EMPTY, tell about its card. */
  datatype Knowledge = Knowledge(colour: Option<Colour>, number: Option<int>)

  ghost function Known(s: State, trace: seq<Action>, p: nat, k: nat): Knowledge
    requires s.numPlayers >= 1
    requires p < |After(s, trace).hands| && k < |After(s, trace).hands[p]|
  {
    var c := After(s, trace).hands[p][k];
    if c.colour == EMPTY then Knowledge(Some(EMPTY), Some(0))
    else
      Knowledge(
        if HintedSinceFilled(s, trace, p, k, HintColour(p, c.colour)) then Some(c.colour) else None,
        if HintedSinceFilled(s, trace, p, k, HintNumber(p, c.number)) then Some(c.number) else None)
  }

  /**
   * Across any two runs of any two games, the texts that two owners see for two slots are equal if and only if
   * the hints since those slots were filled told the two owners the same.
   */
  lemma OwnHandTellsExactlyTheHints(
    s1: State, trace1: seq<Action>, p1: nat, k1: nat,
    s2: State, trace2: seq<Action>, p2: nat, k2: nat)
    requires IsDeal(s1) && IsRun(s1, trace1) && p1 < s1.numPlayers && k1 < CardsPerHand(s1.numPlayers)
    requires IsDeal(s2) && IsRun(s2, trace2) && p2 < s2.numPlayers && k2 < CardsPerHand(s2.numPlayers)
    ensures && p1 < |After(s1, trace1).hands| && k1 < |After(s1, trace1).hands[p1]|
            && p2 < |After(s2, trace2).hands| && k2 < |After(s2, trace2).hands[p2]|
            && (After(s1, trace1).hands[p1][k1].HiddenRepr() == After(s2, trace2).hands[p2][k2].HiddenRepr()
                <==> Known(s1, trace1, p1, k1) == Known(s2, trace2, p2, k2))
  {
    FlagsReplayTheHints(s1, trace1, p1, k1);
    FlagsReplayTheHints(s2, trace2, p2, k2);
    HiddenReprShowsExactlyTheRevealed(After(s1, trace1).hands[p1][k1], After(s2, trace2).hands[p2][k2]);
  }
}
