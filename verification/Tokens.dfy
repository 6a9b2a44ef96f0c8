/** Tokens, draws and turns, counted over whole runs. */
module Tokens {
  import opened Cards
  import opened Decks
  import opened Rules
  import opened Books

  // ----- The ledgers of blue tokens and of draws

  function Completed(table: seq<int>): nat
    requires |table| == NUM_COLOURS
  {
    (if table[0] == 5 then 1 else 0) + (if table[1] == 5 then 1 else 0) + (if table[2] == 5 then 1 else 0)
    + (if table[3] == 5 then 1 else 0) + (if table[4] == 5 then 1 else 0)
  }

  /** Every blue token is accounted for; a bonus token is earned at most once a completed stack. */
  lemma {:induction false} BlueTokensAreExplained(s0: State, trace: seq<Action>)
    requires IsDeal(s0) && IsRun(s0, trace)
    ensures var s := After(s0, trace); var l := LedgerOf(s0, trace);
            && s.blue == TOTAL_BLUE_TOKENS - l.hints + l.discards + l.bonuses
            && l.bonuses <= Completed(s.table) <= NUM_COLOURS
            && 0 <= s.blue <= TOTAL_BLUE_TOKENS + l.discards
            && l.hints <= 13 + l.discards
    decreases |trace|
  {
    DealIsSound(s0);
    if trace != [] {
      var n := |trace| - 1;
      LastTurn(s0, trace);
      BlueTokensAreExplained(s0, trace[..n]);
      RunIsSound(s0, trace);
      RunIsSound(s0, trace[..n]);
      CompletedGrows(After(s0, trace[..n]), Seat(n, s0.numPlayers), trace[n]);
    }
  }

  lemma CompletedGrows(s: State, p: nat, a: Action)
    requires Sound(s) && Legal(s, p, a)
    ensures Completed(Apply(s, p, a).table) == Completed(s.table)
                                                + if Succeeds(s, p, a) && s.hands[p][a.slot].number == 5 then 1 else 0
  {
  }

  /**
   * The cursor and the draws from an exhausted deck together count the deal, the successful plays and the
   * discards; and every turn was a play that fits, a misplay, a hint or a discard.
   */
  lemma {:induction false} DrawsAreExplained(s0: State, trace: seq<Action>)
    requires IsDeal(s0) && IsRun(s0, trace)
    ensures var s := After(s0, trace); var l := LedgerOf(s0, trace);
            && s.next + l.emptyDraws == s0.numPlayers * CardsPerHand(s0.numPlayers) + l.plays + l.discards
            && Score(s.table) == l.plays
            && |trace| == l.plays + |l.misplayed| + l.hints + l.discards
            && l.emptyDiscards <= l.discards
    decreases |trace|
  {
    if trace != [] {
      var n := |trace| - 1;
      LastTurn(s0, trace);
      DrawsAreExplained(s0, trace[..n]);
    }
  }

  /** The stock of blue tokens never exceeded its nominal total. */
  ghost predicate CapKept(s: State, trace: seq<Action>)
    requires s.numPlayers >= 1
  {
    forall i :: 0 <= i <= |trace| ==> After(s, trace[..i]).blue <= TOTAL_BLUE_TOKENS
  }

  /** Nobody discarded while the stock was at its nominal total or above it. */
  ghost predicate NoDiscardAtCap(s: State, trace: seq<Action>)
    requires s.numPlayers >= 1
  {
    forall i :: 0 <= i < |trace| && trace[i].Discard? ==> After(s, trace[..i]).blue < TOTAL_BLUE_TOKENS
  }

  /**
   * Only the bonus token is capped. So the stock of blue tokens stays within its nominal total for a whole run
   * if and only if nobody discards while the stock is full.
   */
  lemma BlueCapHoldsIff(s: State, trace: seq<Action>)
    requires IsRun(s, trace) && s.blue <= TOTAL_BLUE_TOKENS
    ensures CapKept(s, trace) <==> NoDiscardAtCap(s, trace)
  {
    if CapKept(s, trace) {
      forall i | 0 <= i < |trace| && trace[i].Discard?
        ensures After(s, trace[..i]).blue < TOTAL_BLUE_TOKENS
      {
        TurnAt(s, trace, i);
        assert After(s, trace[..i + 1]).blue <= TOTAL_BLUE_TOKENS;
      }
    }
    if NoDiscardAtCap(s, trace) {
      forall i | 0 <= i <= |trace|
        ensures After(s, trace[..i]).blue <= TOTAL_BLUE_TOKENS
      {
        CapKeptUpTo(s, trace, i);
      }
    }
  }

  lemma {:induction false} CapKeptUpTo(s: State, trace: seq<Action>, i: nat)
    requires IsRun(s, trace) && s.blue <= TOTAL_BLUE_TOKENS && NoDiscardAtCap(s, trace) && i <= |trace|
    ensures After(s, trace[..i]).blue <= TOTAL_BLUE_TOKENS
  {
    if i > 0 {
      CapKeptUpTo(s, trace, i - 1);
      TurnAt(s, trace, i - 1);
    }
  }

  /** The first discard of a game already breaks the nominal total. */
  lemma DiscardBreaksBlueCap(s0: State)
    requires IsDeal(s0)
    ensures IsRun(s0, [Discard(0)])
    ensures After(s0, [Discard(0)]).blue == TOTAL_BLUE_TOKENS + 1
  {
    DealIsSound(s0);
    RunExtend(s0, [], Discard(0));
    assert [] + [Discard(0)] == [Discard(0)];
  }

  // ----- How long a game can last

  /** What a game can still spend: every turn but the discard of an EMPTY card uses some of it up. */
  function Potential(s: State): int
    requires Shape(s)
  {
    2 * (|s.cards| - s.next + CountHands(s.hands, NonEmpty)) + s.fuses + s.blue
  }

  lemma {:induction false} AllNonEmpty(cards: seq<Card>)
    requires forall i :: 0 <= i < |cards| ==> cards[i].colour != EMPTY
    ensures Count(cards, NonEmpty) == |cards|
  {
    if cards != [] {
      AllNonEmpty(cards[1..]);
    }
  }

  lemma StartPotential(s0: State)
    requires IsDeal(s0)
    ensures Potential(s0) == 111
  {
    var cards, perHand := s0.cards, CardsPerHand(s0.numPlayers);
    DeckIsFresh(s0);
    DealtHandsHoldTheFront(cards, perHand, s0.numPlayers, NonEmpty);
    DealtTakesTheFront(cards, s0.numPlayers * perHand, NonEmpty);
    AllNonEmpty(cards);
    AllNonEmpty(cards[s0.next..]);
  }

  predicate DiscardsEmpty(s: State, p: nat, a: Action)
    requires Legal(s, p, a)
  {
    a.Discard? && s.hands[p][a.slot].colour == EMPTY
  }

  lemma RefillSpends(s: State, p: nat, k: nat)
    requires Sound(s) && p < s.numPlayers && k < |s.hands[p]|
    ensures var t := Refill(s, p, k);
            |t.cards| - t.next + CountHands(t.hands, NonEmpty) + Weight(s.hands[p][k], NonEmpty)
            == |s.cards| - s.next + CountHands(s.hands, NonEmpty)
  {
    DeckIsFresh(s);
    RefillMovesCards(s, p, k, NonEmpty);
    AllNonEmpty(s.cards[s.next..]);
    AllNonEmpty(s.cards[Advance(s.cards, s.next)..]);
  }

  lemma TurnSpendsPotential(s: State, p: nat, a: Action)
    requires Sound(s) && Legal(s, p, a)
    ensures if DiscardsEmpty(s, p, a) then Potential(Apply(s, p, a)) == Potential(s) + 1
            else Potential(Apply(s, p, a)) <= Potential(s) - 1
  {
    match a
    case Play(k) =>
      RefillSpends(s, p, k);
    case Discard(k) =>
      RefillSpends(s, p, k);
    case HintColour(t, c) =>
      CountRevealed(s.hands[t], RevealColour(s.hands[t], c), NonEmpty);
      CountHandsUpdate(s.hands, t, RevealColour(s.hands[t], c), NonEmpty);
    case HintNumber(t, n) =>
      CountRevealed(s.hands[t], RevealNumber(s.hands[t], n), NonEmpty);
      CountHandsUpdate(s.hands, t, RevealNumber(s.hands[t], n), NonEmpty);
  }

  lemma {:induction false} RunSpendsPotential(s0: State, trace: seq<Action>)
    requires IsDeal(s0) && IsRun(s0, trace)
    ensures Potential(After(s0, trace)) <= 111 - |trace| + 2 * LedgerOf(s0, trace).emptyDiscards
    decreases |trace|
  {
    if trace == [] {
      StartPotential(s0);
    } else {
      var n := |trace| - 1;
      LastTurn(s0, trace);
      DealIsSound(s0);
      RunIsSound(s0, trace[..n]);
      RunSpendsPotential(s0, trace[..n]);
      TurnSpendsPotential(After(s0, trace[..n]), Seat(n, s0.numPlayers), trace[n]);
    }
  }

  /** A run in which EMPTY cards are discarded k times has at least k and at most 111 + 2k turns. */
  lemma {:induction false} RunsAreBounded(s0: State, trace: seq<Action>)
    requires IsDeal(s0) && IsRun(s0, trace)
    ensures var k := LedgerOf(s0, trace).emptyDiscards; k <= |trace| <= 111 + 2 * k
  {
    DealIsSound(s0);
    RunIsSound(s0, trace);
    RunSpendsPotential(s0, trace);
    DrawsAreExplained(s0, trace);
    DiscardPileIsExplained(s0, trace);
  }

  /** The player on turn can always discard, which ends nothing. */
  lemma DiscardGoesOn(s0: State, trace: seq<Action>)
    requires IsDeal(s0) && IsRun(s0, trace) && !Over(After(s0, trace))
    ensures IsRun(s0, trace + [Discard(0)])
    ensures var s, t := After(s0, trace), After(s0, trace + [Discard(0)]);
            !Over(t) && t.table == s.table && t.fuses == s.fuses
  {
    DealIsSound(s0);
    RunIsSound(s0, trace);
    var s := After(s0, trace);
    assert SoundHand(s, s.hands[Seat(|trace|, s0.numPlayers)]);
    RunExtend(s0, trace, Discard(0));
  }

  function Discards(n: nat): seq<Action> {
    seq(n, _ => Discard(0))
  }

  /**
   * Without a last-round rule nothing else bounds a game: from every reachable state that is not the end of it,
   * players who only discard play on for any number of turns, and neither score nor fail.
   */
  lemma {:induction false} DiscardingNeverEnds(s0: State, trace: seq<Action>, n: nat)
    requires IsDeal(s0) && IsRun(s0, trace) && !Over(After(s0, trace))
    ensures IsRun(s0, trace + Discards(n))
    ensures var s, t := After(s0, trace), After(s0, trace + Discards(n));
            !Over(t) && t.table == s.table && t.fuses == s.fuses
  {
    if n == 0 {
      assert trace + Discards(0) == trace;
    } else {
      var shorter := trace + Discards(n - 1);
      DiscardingNeverEnds(s0, trace, n - 1);
      DiscardGoesOn(s0, shorter);
      assert trace + Discards(n) == shorter + [Discard(0)];
    }
  }
}
