/** What a game can still score, and how it ends. */
module Scoring {
  import opened Cards
  import opened Decks
  import opened Rules
  import opened Books
  import opened Tokens

  predicate AllStacksComplete(table: seq<int>)
    requires |table| == NUM_COLOURS
  {
    forall c :: 0 <= c < NUM_COLOURS ==> table[c] == 5
  }

  lemma FullScoreIsAllStacks(s: State)
    requires Sound(s)
    ensures Score(s.table) == 25 <==> AllStacksComplete(s.table)
  {
  }

  lemma OneTurnEndsOneWay(s: State, p: nat, a: Action)
    requires Legal(s, p, a) && !Over(s)
    ensures !(Score(Apply(s, p, a).table) == 25 && Apply(s, p, a).fuses == 0)
  {
  }

  /**
   * The end of the game loop: the game is over exactly when one of its two endings has come about, every stack
   * complete or the third misplay, and never both.
   */
  lemma {:induction false} GameEndsOneWay(s0: State, trace: seq<Action>)
    requires IsDeal(s0) && IsRun(s0, trace)
    ensures var s := After(s0, trace); var l := LedgerOf(s0, trace);
            && (Over(s) <==> AllStacksComplete(s.table) || |l.misplayed| == 3)
            && !(AllStacksComplete(s.table) && |l.misplayed| == 3)
            && (AllStacksComplete(s.table) <==> l.plays == 25)
            && |l.misplayed| <= 3
  {
    DealIsSound(s0);
    RunIsSound(s0, trace);
    DrawsAreExplained(s0, trace);
    DiscardPileIsExplained(s0, trace);
    if trace != [] {
      var n := |trace| - 1;
      LastTurn(s0, trace);
      OneTurnEndsOneWay(After(s0, trace[..n]), Seat(n, s0.numPlayers), trace[n]);
    }
    FullScoreIsAllStacks(After(s0, trace));
  }

  // ----- Dead cards

  /** All copies of a card have been discarded on purpose. */
  predicate IsDead(voluntary: seq<Card>, number: int, colour: Colour) {
    Count(voluntary, OfFace(Face(number, colour))) == Copies(number)
  }

  lemma {:induction false} DiscardsOnlyGrow(s: State, trace: seq<Action>, m: nat, face: Face)
    requires IsRun(s, trace) && m <= |trace|
    ensures Count(LedgerOf(s, trace[..m]).voluntary, OfFace(face)) <= Count(LedgerOf(s, trace).voluntary, OfFace(face))
    decreases |trace|
  {
    if m == |trace| {
      assert trace[..m] == trace;
    } else {
      var n := |trace| - 1;
      LastTurn(s, trace);
      DiscardsOnlyGrow(s, trace[..n], m, face);
      assert trace[..n][..m] == trace[..m];
      var before, p := After(s, trace[..n]), Seat(n, s.numPlayers);
      var l := LedgerOf(s, trace[..n]);
      if trace[n].Discard? {
        CountAppend(l.voluntary, before.hands[p][trace[n].slot], OfFace(face));
      } else {
        assert LedgerOf(s, trace).voluntary == l.voluntary;
      }
    }
  }

  lemma OneLowStack(table: seq<int>, c: nat, number: int)
    requires |table| == NUM_COLOURS && c < NUM_COLOURS && table[c] < number
    requires forall i :: 0 <= i < NUM_COLOURS ==> table[i] <= 5
    ensures Score(table) <= 25 - (6 - number)
  {
    assert table[0] <= 5 && table[1] <= 5 && table[2] <= 5 && table[3] <= 5 && table[4] <= 5;
  }

  /** A state in which all copies of a card lie discarded has its stack below that card. */
  lemma DeadCardIsNotOnTable(s: State, voluntary: seq<Card>, number: int, colour: Colour)
    requires Shape(s) && colour != EMPTY && 1 <= number <= 5
    requires InPlay(s, Face(number, colour)) + Count(voluntary, OfFace(Face(number, colour))) == Copies(number)
    requires Count(voluntary, OfFace(Face(number, colour))) >= Copies(number)
    ensures s.table[Index(colour)] < number
  {
  }

  /** Once a card is dead after m turns, its stack stays below it in every later state. */
  lemma {:induction false} DeadCardStopsItsStack(s0: State, trace: seq<Action>, m: nat, number: int, colour: Colour)
    requires IsDeal(s0) && IsRun(s0, trace) && m <= |trace|
    requires colour != EMPTY && 1 <= number <= 5
    requires IsDead(LedgerOf(s0, trace[..m]).voluntary, number, colour)
    ensures After(s0, trace).table[Index(colour)] < number
  {
    var face := Face(number, colour);
    var s, voluntary := After(s0, trace), LedgerOf(s0, trace).voluntary;
    CardsAreConserved(s0, trace, face);
    DiscardsOnlyGrow(s0, trace, m, face);
    DeadCardIsNotOnTable(s, voluntary, number, colour);
  }

  lemma StacksAreBounded(s0: State, trace: seq<Action>)
    requires IsDeal(s0) && IsRun(s0, trace)
    ensures var table := After(s0, trace).table;
            |table| == NUM_COLOURS && forall i :: 0 <= i < NUM_COLOURS ==> 0 <= table[i] <= 5
  {
    DealIsSound(s0);
    RunIsSound(s0, trace);
  }

  /** So every point from that card up is lost for the rest of the game. */
  lemma DeadCardCapsTheScore(s0: State, trace: seq<Action>, m: nat, number: int, colour: Colour)
    requires IsDeal(s0) && IsRun(s0, trace) && m <= |trace|
    requires colour != EMPTY && 1 <= number <= 5
    requires IsDead(LedgerOf(s0, trace[..m]).voluntary, number, colour)
    ensures Score(After(s0, trace).table) <= 25 - (6 - number)
  {
    StacksAreBounded(s0, trace);
    DeadCardStopsItsStack(s0, trace, m, number, colour);
    OneLowStack(After(s0, trace).table, Index(colour), number);
  }

  /** The height that a stack can still reach: one below its lowest dead card. */
  function Ceiling(voluntary: seq<Card>, colour: Colour, number: nat): nat
    requires 1 <= number <= 6
    decreases 6 - number
  {
    if number == 6 || IsDead(voluntary, number, colour) then number - 1 else Ceiling(voluntary, colour, number + 1)
  }

  lemma {:induction false} CeilingIsLowestDead(voluntary: seq<Card>, colour: Colour, number: nat)
    requires 1 <= number <= 6
    ensures var top := Ceiling(voluntary, colour, number);
            && number - 1 <= top <= 5
            && (top < 5 ==> IsDead(voluntary, top + 1, colour))
            && (forall n :: number <= n <= top ==> !IsDead(voluntary, n, colour))
    decreases 6 - number
  {
    if number < 6 && !IsDead(voluntary, number, colour) {
      CeilingIsLowestDead(voluntary, colour, number + 1);
    }
  }

  lemma StackStaysUnderCeiling(s0: State, trace: seq<Action>, m: nat, colour: Colour)
    requires IsDeal(s0) && IsRun(s0, trace) && m <= |trace|
    requires colour != EMPTY
    ensures After(s0, trace).table[Index(colour)]
            <= Ceiling(LedgerOf(s0, trace[..m]).voluntary, colour, 1)
  {
    var voluntary := LedgerOf(s0, trace[..m]).voluntary;
    var top := Ceiling(voluntary, colour, 1);
    CeilingIsLowestDead(voluntary, colour, 1);
    DealIsSound(s0);
    RunIsSound(s0, trace);
    if top < 5 {
      DeadCardStopsItsStack(s0, trace, m, top + 1, colour);
    }
  }

  /** The best score left, whatever is played from now on, given what has been thrown away so far. */
  lemma {:induction false} ScoreStaysUnderCeilings(s0: State, trace: seq<Action>, m: nat)
    requires IsDeal(s0) && IsRun(s0, trace) && m <= |trace|
    ensures var v := LedgerOf(s0, trace[..m]).voluntary;
            Score(After(s0, trace).table)
            <= Ceiling(v, RED, 1) + Ceiling(v, BLUE, 1) + Ceiling(v, GREEN, 1) + Ceiling(v, YELLOW, 1)
               + Ceiling(v, WHITE, 1)
  {
    StackStaysUnderCeiling(s0, trace, m, RED);
    StackStaysUnderCeiling(s0, trace, m, BLUE);
    StackStaysUnderCeiling(s0, trace, m, GREEN);
    StackStaysUnderCeiling(s0, trace, m, YELLOW);
    StackStaysUnderCeiling(s0, trace, m, WHITE);
  }
}
