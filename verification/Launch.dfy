/** From the lobby into a game: what the lobby guarantees to the game, and the game that it starts. */
module Launch {
  import Lobby
  import LobbyTheorems
  import opened Cards
  import opened Decks
  import opened Rules
  import opened Books
  import opened Scoring
  import opened GameLoop
  import opened Engine

  /** Up to twelve players the deal stays within the deck. */
  lemma DealWithinDeck(players: nat, cards: seq<Card>)
    requires 1 <= players && IsShuffledDeck(cards)
    ensures (forall p, k :: 0 <= p < players && 0 <= k < CardsPerHand(players)
                            ==> Start(players, cards).hands[p][k].IsFresh())
            <==> players <= 12
    ensures players <= 12 ==> Start(players, cards).next == players * CardsPerHand(players) <= 48
  {
    var s, m := Start(players, cards), CardsPerHand(players);
    DeckIsFresh(s);
    forall p, k | 0 <= p < players && 0 <= k < m && players <= 12
      ensures s.hands[p][k].IsFresh()
    {
      DealtSlot(players, cards, p, k);
      var nth := p * m + k;
      assert s.hands[p][k] == CardAt(cards, nth);
    }
    if players > 12 {
      var p, k := 12, 3;
      assert s.hands[p][k] == CardAt(cards, 51);
    }
  }

  /** Under any interleaving, no game that has players at all deals an EMPTY card to start with. */
  lemma LobbyGamesDealRealCards(run: seq<Lobby.Label>, h: Lobby.Player, cards: seq<Card>, p: nat, k: nat)
    requires Lobby.IsRun(run) && h in Lobby.After(run).games && IsShuffledDeck(cards)
    requires var n := |Lobby.After(run).games[h]|; p < n && k < CardsPerHand(n)
    ensures var n := |Lobby.After(run).games[h]|;
            1 <= n <= 5 && Start(n, cards).hands[p][k].IsFresh() && Start(n, cards).next <= 20
  {
    LobbyTheorems.GameIsWellStaffedIff(run, h);
    DealWithinDeck(|Lobby.After(run).games[h]|, cards);
  }

  /** A handler builds the game for a moved roster, unless that is empty, and plays it. */
  method PlayGame(
    roster: seq<nat>, shuffled: seq<Card>, streams: seq<seq<int>>, ghost run: seq<Lobby.Label>, ghost h: Lobby.Player)
    returns (game: Game, end: End, ghost trace: seq<Action>)
    requires Lobby.IsRun(run) && h in Lobby.After(run).games && roster == Lobby.After(run).games[h] && roster != []
    requires |streams| == |roster| && IsShuffledDeck(shuffled)
    ensures |roster| <= 5 && (h in roster ==> roster[0] == h && |roster| >= 2)
    ensures fresh(game) && fresh(game.deck) && game.Valid() && game.players == roster
    ensures var s0 := Start(|roster|, shuffled);
            && IsRun(s0, trace)
            && game.View() == After(s0, trace)
            && Result(end, game.View(), trace, game.inbox) == PlayOn(s0, 0, streams)
            && (end == StacksComplete <==> AllStacksComplete(game.table))
            && (end == FusesGone <==> |LedgerOf(s0, trace).misplayed| == 3)
            && (end == PlayerLost ==> game.inbox[Seat(|trace|, |roster|)] == [])
  {
    LobbyTheorems.GameIsWellStaffedIff(run, h);
    game := new Game(roster, shuffled, streams);
    end, trace := game.Start();
    GameIsARun(Start(|roster|, shuffled), streams);
  }
}
