# Hanabi server: a verified model

This project models the game server of the repository in Dafny and proves what it keeps over whole runs. It covers
three parts.

- **The game.** `Engine.Game` is the game object with its fields and its nested retry loops: `Turn`, `SelectAction`,
  `PlayCard`, `DiscardCard`, `GiveHint` and `RequestInt`, reading each player's answers from a finite stream.
  `Rules` says as a function on values what one action does and what a run of actions does. `Dialogue` is a flat
  automaton over the stream of answers; the nested loops are proved to do exactly what it says. `GameLoop` is the
  whole game as a function of the shuffled deck and the streams. `Decks`, `Books`, `Tokens`, `Scoring` and `Hints`
  prove properties of every run: where every card and token is, how long a game lasts and how it ends, what can
  still be scored, and that the reveal flags are the record of the hints given. `Rulebook` tells the rules in plain
  colours, numbers and answers. `Cards` has the two card texts.
- **The lobby.** `Lobby` is a transition system of any number of connection handlers over one shared map of
  sessions, each critical section one step. `LobbySafety` proves its invariants, `LobbyTheorems` what players can
  rely on and the runs in which they cannot, `LobbyScripts` what one handler does from start to end. `Server` has the
  session object and the critical sections as methods, each proved to take the step it stands for. `Launch` takes a
  roster from the lobby into a game.
- **Framing.** `Framing` is the length-prefixed message format on a byte stream, in network byte order (Appendix B
  of RFC 791), with its writer and reader.

## Assumptions and departures

- The game loop is modelled without the work-in-progress `return` after the first turn
  (`hanabi_game/src/game.cpp:88`), which the repository's to-do list announces to go away (`readme.md:57`).
- A player's answers are a finite stream of integers. A stream that ends is a connection on which reading fails, so
  every behaviour up to a failed read is covered. An absent field, or a message that cannot be parsed, is a 0.
- The random source is a parameter: a deck is shuffled into any rearrangement of its 50 cards.
- Playing an EMPTY card reads the table at index 6, outside its five entries. The model stops there with its own
  outcome (`PlaysEmpty`, `Broken`, `EmptyPlayed`) and says nothing about what follows. `GameLoop.GameIsARun` shows
  that it can only happen once the deck is exhausted.
- Writes to sockets do not fail, and only reads do. The unframed prompts of the old writer are not modelled.
- In the lobby, the move of a roster into a game is one atomic step, although the code takes no lock for it
  (`hanabi_game/src/handle_client_helpers.cpp:75`). Reading the player count at line 56 is one as well.
- The order in which a scan visits the map of sessions is a parameter: any order of its entries.
- Identifiers are the size of the map, and a new session may find its own taken. The lobby's invariants and theorems
  hold in every interleaving, collisions included, but for the few that say that no two handlers own the same entry
  (`IsUnsharedRun`): that they own their entries, that every leader is in its game, and what they erase.
  `LobbySafety.UnsharedRunsIff` says when that is so.
- A new session that finds its identifier at an entry without players reads the leader of an empty roster
  (`hanabi_game/src/session.cpp:81-84`). The handler stops there (`Crashed`), and nothing is said of what follows.
- A player's socket may be closed on the server's side at any time, as a step of its own. A connection that the peer
  has given up counts as open until then, as in `common/src/sockets.cpp:83-88`.
- Default sessions that a lookup by key creates have identifier 0 and no players, as value-initialisation gives.

## Findings

- A misplayed card goes to the discard pile and stays in the hand. The pile and the cards in play make up the full
  set if and only if every play so far fitted (`Books.PileIsApartIff`); `Books.MisplayExample` is a game in which they
  do not.
- The stock of blue tokens is capped only for the bonus of a completed stack. It stays within 8 if and only if nobody
  discards at 8 (`Tokens.BlueCapHoldsIff`), and the first discard of a game breaks it (`Tokens.DiscardBreaksBlueCap`).
- There is no last round: from every unfinished state of a game, players who only discard play on for ever
  (`Tokens.DiscardingNeverEnds`). What lets a game grow is the discard of EMPTY cards alone: with k of them it has at
  least k and at most 111 + 2k turns (`Tokens.RunsAreBounded`).
- A message of 2^32 bytes or more is never read back as it was written (`Framing.FrameRoundTripIff`).
- The announcement of a join adds an entry without players to the map if and only if the session was erased since
  the join (`LobbyTheorems.LateAnnouncementIff`); `LobbyTheorems.LateAnnouncementLeavesAnEntry` is such a run. The
  entry never gains a player (`LobbyTheorems.EmptyEntryNeverGainsAPlayer`).
- The identifier of a new session is taken if and only if the map has one gap more among the smaller numbers than
  keys beyond (`LobbyTheorems.SizeIsTakenIff`), and then its leader gets no entry and is dropped
  (`LobbyTheorems.CreateInsertsIff`, `LobbyTheorems.SizeAsIdentifierCanCollide`).
- If the entry found has players, two handlers own it from then on (`LobbySafety.SharingStartsIff`), and the second
  to start builds a game without players (`LobbyTheorems.SharedEntryGivesAnEmptyGame`), whose first turn would look
  for player 0. If it has none, the handler reads a leader that is not there
  (`LobbyTheorems.EmptiedEntryCrashesALeader`).

## Model

| member | source | states |
|---|---|---|
| Cards.IntToStringInjective | hanabi_game/src/card.cpp:30-30 | different integers have different decimal texts |
| Cards.FullReprInjective | hanabi_game/src/card.cpp:28-41 | the text shown to the other players determines colour, number and both flags, for every integer |
| Cards.HiddenReprShowsExactlyTheRevealed | hanabi_game/src/card.cpp:43-56 | the texts shown to the owners of two cards are equal if and only if the flags agree and so do the components they reveal |
| Cards.NatToStringIsDecimal | hanabi_game/src/card.cpp:30-30 | the text of a number is its decimal digits, most significant first, without leading zeros |
| Cards.ColoursAsShown | hanabi_game/src/card.cpp:7-25 | the six names of colours, letter by letter |
| Cards.FullTextsAsShown | hanabi_game/src/card.cpp:28-41 | the four texts of a blue 3 shown to others, letter by letter |
| Cards.HiddenTextsAsShown | hanabi_game/src/card.cpp:43-56 | the four texts of a blue 3 shown to its owner, and that of the EMPTY card, letter by letter |
| Decks.Deck.constructor | hanabi_game/src/deck.cpp:6-30 | the pushed cards are, up to rearrangement, three 1s, two each of 2 to 4 and one 5 in five colours, and the deck is any rearrangement of them with the cursor at 0 |
| Decks.Deck.PushColour | hanabi_game/src/deck.cpp:10-26 | one round of the constructor's loop appends the ten cards of one colour in their order |
| Decks.Deck.Draw | hanabi_game/src/deck.cpp:36-42 | the card at the cursor and a cursor one further, or an EMPTY revealed card and the cursor unmoved |
| Decks.ColourBlockContents | hanabi_game/src/deck.cpp:13-25 | a colour's ten cards hold each number 1 to 5 three, two, two, two and one times, unrevealed, and no other card |
| Decks.ShuffledDeckContents | hanabi_game/src/deck.cpp:10-34 | every shuffled deck has only unrevealed printed cards, and for every face exactly the right number of copies |
| Decks.DrawStream | hanabi_game/src/deck.cpp:36-42 | whatever the shuffle, the first 50 draws are the full set and every later draw is EMPTY |
| Rulebook.DeckInNumbers | hanabi_game/src/deck.cpp:10-34 | fifty unrevealed cards; of each of RED, BLUE, GREEN, YELLOW and WHITE three 1s, two 2s, two 3s, two 4s and one 5 |
| Rulebook.DealInNumbers | hanabi_game/src/game.cpp:13-75 | five empty stacks, 8 blue tokens and 3 fuses; hand q holds the cards 5q to 5q + 4 of the deck with up to three players, 4q to 4q + 3 with more; two, three, four and five players leave the cursor at 10, 15, 16 and 20 |
| Rulebook.HandSizes | hanabi_game/src/game.cpp:18-184 | in every reachable state a hand has five cards with up to three players and four with more |
| Rulebook.PlayIsAnswered | hanabi_game/src/game.cpp:126-151 | the answers 0 and k play the card in slot k, which must not be EMPTY |
| Rulebook.DiscardIsAnswered | hanabi_game/src/game.cpp:126-178 | the answers 1 and k discard the card in slot k, whatever it is |
| Rulebook.ColourHintIsAnswered | hanabi_game/src/game.cpp:189-243 | the answers 2, t, 0 and 0, 1, 2, 3 or 4 hint RED, BLUE, GREEN, YELLOW or WHITE at player t if that player has it, and otherwise another colour is asked for |
| Rulebook.NumberHintIsAnswered | hanabi_game/src/game.cpp:189-278 | the answers 2, t, 1 and n from 1 to 5 hint n at player t if that player has it, and otherwise another number is asked for |
| Rulebook.PlayInWords | hanabi_game/src/game.cpp:150-168 | a play compares the card with the stack at 0 to 4 for RED to WHITE; one above it raises that stack alone, draws, and for a 5 gives back a token below 8; any other costs a fuse, goes to the pile and stays in the hand |
| Rulebook.DiscardInWords | hanabi_game/src/game.cpp:174-184 | a discard adds the card to the pile and a token without limit, draws, and changes nothing else |
| Rulebook.ColourHintInWords | hanabi_game/src/game.cpp:225-241 | a hint takes one token and sets the colour flag of exactly the cards of that colour in that hand |
| Rulebook.NumberHintInWords | hanabi_game/src/game.cpp:260-276 | a hint takes one token and sets the number flag of exactly the cards with that number in that hand |
| Rulebook.HintsAreAboutPrintedCards | hanabi_game/src/game.cpp:225-271 | in every reachable state, a hint that can be given is about at least one card of that hand that is printed and not EMPTY |
| Rulebook.StacksAreBuiltInOrder | hanabi_game/src/game.cpp:150-153 | in every reachable state, the cards of a colour played without losing a fuse are 1, 2 and so on in this order, up to the number at 0 to 4 of the table for RED to WHITE |
| Dialogue.ParsedActionIsLegal | hanabi_game/src/game.cpp:126-282 | the action that a stream of answers commits is legal in the state of the turn |
| Dialogue.SpellingIsParsed | hanabi_game/src/game.cpp:126-282 | every legal action can be entered, and the answers after it are left unread |
| Dialogue.CommittedActionWasSpelled | hanabi_game/src/game.cpp:126-282 | after striking out refused answers and everything before the last way back, what remains is exactly the spelling of the committed action, or of playing an EMPTY card |
| Dialogue.ParseReadsAPrefix | hanabi_game/src/game.cpp:121-124 | the parse commits at the first prefix that completes an action and does not depend on what follows |
| Dialogue.ParseOfLonger | hanabi_game/src/game.cpp:121-124 | answers that arrive later do not change an action that was committed |
| Dialogue.OneAnswer | hanabi_game/src/game.cpp:147-278 | refused answers (out of range, a hint to oneself, without a token, or about nothing) are as good as not given, -1 takes back the choices so far, every other answer counts |
| Dialogue.FirstInRangeIsFirst | hanabi_game/inc/sockets_util.h:31-43 | the answer taken is within bounds, all those before it are not, and none is taken only if none is |
| Dialogue.ParseSkipsOutOfRange | hanabi_game/inc/sockets_util.h:31-43 | skipping answers out of a question's bounds does not change what is parsed |
| Engine.Game.constructor | hanabi_game/src/game.cpp:13-18 | an empty table, the moved roster, five cards a hand for up to three players and four for more, and a shuffled deck |
| Engine.Game.RequestInt | hanabi_game/inc/sockets_util.h:31-43 | returns the first answer within bounds and consumes the stream up to it, or finds the stream ended; no other stream is touched |
| Engine.Game.PlayCard | hanabi_game/src/game.cpp:143-169 | does what the parse from the question for a card to play says: one play applied once, or no change and back, lost or undefined |
| Engine.Game.DiscardCard | hanabi_game/src/game.cpp:171-187 | does what the parse from the question for a card to discard says |
| Engine.Game.TargetsOfColour | hanabi_game/src/game.cpp:225-230 | finds all positions of cards of the colour and only those |
| Engine.Game.TargetsOfNumber | hanabi_game/src/game.cpp:260-265 | finds all positions of cards with the number and only those |
| Engine.Game.ShowColour | hanabi_game/src/game.cpp:237-239 | sets the colour flag of exactly the targeted cards of one hand |
| Engine.Game.ShowNumber | hanabi_game/src/game.cpp:272-274 | sets the number flag of exactly the targeted cards of one hand |
| Engine.Game.HintAColour | hanabi_game/src/game.cpp:214-243 | does what the parse from the question for a colour says |
| Engine.Game.HintANumber | hanabi_game/src/game.cpp:246-278 | does what the parse from the question for a number says |
| Engine.Game.AskHintee | hanabi_game/src/game.cpp:196-203 | asks until somebody else, or -1, is named: the parse from the question for a player goes on from the answer |
| Engine.Game.GiveHint | hanabi_game/src/game.cpp:189-282 | does what the parse from the question for a player to hint to says, and goes back at once without a blue token |
| Engine.Game.SelectAction | hanabi_game/src/game.cpp:126-141 | does what the parse from the first question says, and going back has consumed at least one answer |
| Engine.Game.Turn | hanabi_game/src/game.cpp:111-124 | for every stream of answers, the first complete action in it is applied exactly once; if the stream ends first, the state is that of the start of the turn; no other stream is read |
| Engine.Game.Deal | hanabi_game/src/game.cpp:67-73 | hand i gets the i-th run of cards from the deck, and the cursor has moved past all of them |
| Engine.Game.TotalPoints | hanabi_game/src/game.cpp:91-92 | the sum of the five stacks |
| Engine.Game.Start | hanabi_game/src/game.cpp:66-109 | deal and loop give the ending, the final state, the actions taken and the answers left that `GameLoop.PlayOn` computes from the deck and the streams |
| Rules.SeatIsModulo | hanabi_game/src/game.cpp:85-86 | turn t is taken by player t modulo the number of players |
| GameLoop.PlayOnExtendsRun | hanabi_game/src/game.cpp:83-94 | playing on from any run extends it by legal turns of the right players, and stops exactly when the score is 25 or the fuses are gone |
| GameLoop.GameIsARun | hanabi_game/src/game.cpp:66-109 | for every shuffle and all streams the game is such a run; it succeeds exactly with every stack complete, fails exactly with the third misplay, and otherwise ended because the player on turn was lost or played an EMPTY card from an exhausted deck; its length is bounded |
| GameLoop.LaterAnswersOnlyAddTurns | hanabi_game/src/game.cpp:83-104 | when every stream is a beginning of a longer one, the turns played are a beginning of those played on the longer streams, and a game that ended otherwise than by losing a player ends the same |
| GameLoop.EveryRunIsPlayable | hanabi_game/src/game.cpp:83-94 | for every run of legal actions there are answers on which the game takes exactly its turns and reaches its state, over if that is, and otherwise waiting for the next answer |
| GameLoop.AnswersAreAccountedFor | hanabi_game/src/game.cpp:83-141 | every stream is what its player's turns read and a tail: each turn reads exactly the answers that enter its action in the state of that turn, and at the end the tails are unread, or begin with no complete action of the player on turn |
| Books.StartIsSound | hanabi_game/src/game.cpp:66-75 | the invariant holds after the deal, and the game is not over |
| Books.ApplyKeepsSound | hanabi_game/src/game.cpp:143-282 | every legal action keeps stacks within 0 to 5, hands full, hand cards printed or EMPTY, EMPTY cards only once the deck is exhausted, and blue tokens at 0 or more |
| Books.RunIsSound | hanabi_game/src/game.cpp:83-94 | so they hold in every reachable state |
| Books.ApplyConserves | hanabi_game/src/game.cpp:143-187 | for every face, an action removes from the cards in play only the card discarded and adds only an EMPTY card drawn |
| Books.StartConserves | hanabi_game/src/game.cpp:66-73 | after the deal, undrawn cards and hands are the full set, and EMPTY cards for what the deck could not give |
| Books.CardsAreConserved | hanabi_game/src/game.cpp:66-187 | in every reachable state and for every face, undrawn cards, hands, stacks and voluntary discards together are the full set and one EMPTY card for each draw from the exhausted deck |
| Books.DiscardPileIsExplained | hanabi_game/src/game.cpp:161-183 | the discard pile is, as a multiset of cards with their flags, the voluntary discards and the misplayed cards, and the misplays are as many as the fuses gone |
| Books.PileIsApartIff | hanabi_game/src/game.cpp:161-183 | over a run, pile and cards in play make up the full set and the EMPTY cards drawn, for every face, if and only if every play fitted its stack when it was made |
| Books.OpeningMisplayOverlaps | hanabi_game/src/game.cpp:161-163 | any opening play of a printed card other than a 1 is legal, and its face is then counted once too often |
| Books.MisplayExample | hanabi_game/src/game.cpp:161-163 | there is such a game: two players and a deck in the order in which it was built |
| Tokens.BlueTokensAreExplained | hanabi_game/src/game.cpp:74-271 | blue tokens are 8 less hints plus discards plus bonuses, bonuses are at most the completed stacks, so tokens stay within 0 and 8 plus discards, and hints within 13 plus discards |
| Tokens.DrawsAreExplained | hanabi_game/src/game.cpp:69-184 | cursor and draws from the exhausted deck count the deal, the successful plays and the discards; the score is the number of successful plays; every turn is a play that fits, a misplay, a hint or a discard |
| Tokens.BlueCapHoldsIff | hanabi_game/src/game.cpp:156-182 | over a run the stock stays within 8 if and only if nobody discards while it is full |
| Tokens.DiscardBreaksBlueCap | hanabi_game/src/game.cpp:182-182 | the opening discard is legal and leaves 9 blue tokens |
| Tokens.StartPotential | hanabi_game/src/game.cpp:66-75 | the potential of a fresh game is 111 for every number of players |
| Tokens.TurnSpendsPotential | hanabi_game/src/game.cpp:143-282 | every turn lowers the potential, but the discard of an EMPTY card, which raises it by one |
| Tokens.RunsAreBounded | hanabi_game/src/game.cpp:83-94 | a run with k discards of EMPTY cards has at least k and at most 111 + 2k turns |
| Tokens.DiscardingNeverEnds | hanabi_game/src/game.cpp:83-94 | from every reachable state that is not the end of the game, n more discards are legal for every n, and neither score nor fail |
| Scoring.GameEndsOneWay | hanabi_game/src/game.cpp:90-108 | the game is over exactly when every stack is complete or three cards were misplayed, never both; the first happens exactly with 25 successful plays |
| Scoring.DeadCardStopsItsStack | hanabi_game/src/game.cpp:151-184 | once all copies of a card were discarded on purpose, its stack stays below it in every later state |
| Scoring.DeadCardCapsTheScore | hanabi_game/src/game.cpp:151-184 | and the score never exceeds 25 less the points from that card up |
| Scoring.CeilingIsLowestDead | hanabi_game/src/game.cpp:151-153 | the ceiling of a stack is one below its lowest dead card |
| Scoring.ScoreStaysUnderCeilings | hanabi_game/src/game.cpp:83-94 | whatever is played from any point on, the final score is at most the sum of the five ceilings at that point |
| Hints.SlotStep | hanabi_game/src/game.cpp:143-282 | an action refills a slot with the next card, or keeps its face and adds a flag only by a matching hint to its holder |
| Hints.FlagsReplayTheHints | hanabi_game/src/game.cpp:154-276 | in every reachable state a card shows its colour (number) if and only if it is EMPTY or that colour (number) was hinted to its holder since the slot was last filled |
| Hints.OwnHandTellsExactlyTheHints | hanabi_game/src/game.cpp:44-48 | across any two runs of any two games, two owners see the same text for their slots if and only if the hints since those were filled, or being EMPTY, told them the same |
| Lobby.FirstAcceptingIsFirst | hanabi_game/src/handle_client_helpers.cpp:134-156 | the scan's result is the first entry that accepts, and there is none only if no entry accepts |
| LobbySafety.StepKeepsCounted | hanabi_game/src/session.cpp:10-45 | every step keeps: an entry with players counts them right and has at most five |
| LobbySafety.StepKeepsPlaced | hanabi_game/src/handle_client_helpers.cpp:21-167 | every step keeps every connected player held in its recorded place (its handler, a session, a game, or dropped) and nowhere else |
| LobbySafety.StepKeepsSeats | hanabi_game/src/handle_client_helpers.cpp:21-167 | every step keeps: the first player of a session is led there by its own handler, with somebody else once that is starting, and those behind have joined |
| LobbySafety.StepKeepsGames | hanabi_game/src/handle_client_helpers.cpp:66-79 | every step keeps: the players with a game are those whose handlers moved a roster; a game has at most five players, and if its leader is in it, at least two with the leader first |
| LobbySafety.StepKeepsRosters | hanabi_game/src/session.cpp:26-45 | every step keeps every roster, in sessions and in games, equal to its first player followed by those who joined that player, in join order |
| LobbySafety.StepKeepsLogAgrees | hanabi_game/src/handle_client_helpers.cpp:86-155 | every step keeps moves, joins and acknowledgements in the log in agreement with where the handlers stand |
| LobbySafety.StepKeepsJoinsFirst | hanabi_game/src/handle_client_helpers.cpp:75-126 | no step logs a join after a move by the player who is joined |
| LobbySafety.RunsAreSane | hanabi_game/src/handle_client_helpers.cpp:21-167 | all of these hold after every interleaving |
| LobbySafety.StepKeepsOwned | hanabi_game/src/handle_client_helpers.cpp:21-79 | a step that puts nobody under the identifier of an entry with players keeps: each owning handler has its own entry, led by its player before the move and empty after it, and is in its game |
| LobbySafety.SharingStartsIff | hanabi_game/src/handle_client_helpers.cpp:25-30 | a step makes two handlers own one entry if and only if it creates a session under the identifier of an entry with players |
| LobbySafety.UnsharedRunsIff | hanabi_game/src/handle_client_helpers.cpp:25-30 | over a run no two handlers ever own the same entry if and only if each identifier taken was new or that of an entry without players |
| LobbySafety.UnsharedRunsAreOwned | hanabi_game/src/handle_client_helpers.cpp:21-79 | then the ownership of entries holds after the run |
| LobbyTheorems.EveryPlayerIsInOnePlace | hanabi_game/src/handle_client_helpers.cpp:21-167 | after every interleaving, every connected player is in exactly one of its handler, a session, a game, or dropped |
| LobbyTheorems.NobodyIsInTwoRosters | hanabi_game/src/session.cpp:10-45 | after every interleaving, no player is twice in a game's roster, in two games, or in a game and a session |
| LobbyTheorems.EntriesAreCounted | hanabi_game/src/session.cpp:10-45 | after every interleaving, an entry with players counts them right, has at most five, and is led by the handler of the first |
| LobbyTheorems.RosterOnlyGrowsUntilTheMove | hanabi_game/src/handle_client_helpers.cpp:56-75 | a roster is a beginning of every later roster with the same first player, in a session or in a game, so the check for two players stays valid |
| LobbyTheorems.GameIsWellStaffedIff | hanabi_game/src/handle_client_helpers.cpp:56-75 | after every interleaving, a game has at most five players, and it has its leader in it if and only if it has at least two and is the leader and then the joiners in join order |
| LobbyTheorems.GamesAreWellStaffed | hanabi_game/src/handle_client_helpers.cpp:56-75 | if no two handlers own one entry, every game has two to five players, the leader and then the joiners in join order |
| LobbyTheorems.SecondMoveIsEmpty | hanabi_game/src/handle_client_helpers.cpp:75-75 | of two handlers that are about to move the same roster, the second builds a game without players |
| LobbyTheorems.JoinIsGrantedIff | hanabi_game/src/handle_client_helpers.cpp:86-107 | after every interleaving, a request to join is granted exactly while the leader, with an open socket, is in the session and there is room |
| LobbyTheorems.JoinLinearisesAgainstStart | hanabi_game/src/handle_client_helpers.cpp:107-122 | after every interleaving, a success is sent exactly to those who joined, they joined before their leader moved a roster and are wherever that leader is first; those sent a failure never joined and are dropped |
| LobbyTheorems.JoinRandomTakesTheFirst | hanabi_game/src/handle_client_helpers.cpp:130-166 | after every interleaving, a joiner enters at most one session, the first in scan order that accepts, all others unchanged; it goes on to create one exactly if every entry had no players, a closed leader or five players |
| LobbyTheorems.EmptyEntryNeverGainsAPlayer | hanabi_game/src/session.cpp:28-31 | an entry with an empty roster, moved out or made by a lookup, stays empty as long as it exists |
| LobbyTheorems.LateAnnouncementIff | hanabi_game/src/handle_client_helpers.cpp:124-127 | the announcement of a join adds an entry, without players, if and only if the session was erased while the joiner was going to announce itself and was not used again |
| LobbyTheorems.LateAnnouncementLeavesAnEntry | hanabi_game/src/handle_client_helpers.cpp:124-127 | a run of two players after which the map holds such an entry only |
| LobbyTheorems.SizeIsTakenIff | hanabi_game/src/handle_client_helpers.cpp:25-26 | the size of a map is a key of it if and only if there is one gap more below it than there are keys beyond it |
| LobbyTheorems.FreshRunsIff | hanabi_game/src/handle_client_helpers.cpp:25-26 | a run creates every session under an identifier that is not in the map if and only if gaps and keys beyond are as many whenever it creates one |
| LobbyTheorems.CreateInsertsIff | hanabi_game/src/handle_client_helpers.cpp:25-30 | after every interleaving, a new leader is in an entry, a new one of its own, if and only if the identifier is not in the map; otherwise it is dropped and the map stays as it was |
| LobbyTheorems.ContiguousStep | hanabi_game/src/handle_client_helpers.cpp:25-125 | on contiguous identifiers the next one is fresh, and a step keeps them contiguous if and only if it erases the last or inserts the next |
| LobbyTheorems.TidyRunsAreFresh | hanabi_game/src/handle_client_helpers.cpp:25-125 | so a run of such steps creates every session under a fresh identifier |
| LobbyTheorems.TidyRunsStaffGames | hanabi_game/src/handle_client_helpers.cpp:25-125 | and every game of such a run has two to five players |
| LobbyTheorems.LeadersEraseTheirOwn | hanabi_game/src/handle_client_helpers.cpp:45-79 | if no two handlers own one entry, what a handler erases is the entry of its leader, empty after a move and still led by it otherwise |
| LobbyTheorems.SizeAsIdentifierCanCollide | hanabi_game/src/handle_client_helpers.cpp:25-26 | a run after which a third leader's identifier is taken, so that the leader is dropped and the map stays as it was |
| LobbyTheorems.EmptiedEntryCrashesALeader | hanabi_game/src/handle_client_helpers.cpp:25-30 | a run after which a leader finds its identifier at an entry whose roster was moved out |
| LobbyTheorems.SharedEntryGivesAnEmptyGame | hanabi_game/src/handle_client_helpers.cpp:25-75 | a run after which one of two handlers of the same session has a game without players |
| LobbyScripts.HandlersFollowTheirScript | hanabi_game/src/handle_client_helpers.cpp:21-167 | in every interleaving the steps of each handler come in the order of the three functions: connect; create, then requests to start until one is announced, move, erase, or loss and erase; join, then success and announcement or failure; join any, then success and announcement or create |
| LobbyScripts.NobodyIsStuck | hanabi_game/src/handle_client_helpers.cpp:21-167 | if no two handlers own one entry, a handler that is not at its end can take a step |
| LobbyScripts.JoinRandomGoesOn | hanabi_game/src/handle_client_helpers.cpp:137-166 | a joiner without a preference that was let in is acknowledged next, and one that was not creates a session next |
| LobbyScripts.StartGoesOn | hanabi_game/src/handle_client_helpers.cpp:56-65 | a request to start changes nothing when the count is 1, and otherwise the handler announces the start next |
| LobbyScripts.ClosedIff | common/src/sockets.cpp:83-88 | the sockets found closed are exactly those closed before |
| LobbyScripts.RoomForFive | hanabi_game/src/session.cpp:26-45 | after every interleaving, a session whose leader has an open socket lets a joiner in behind its one to four players, and refuses it with five |
| LobbyScripts.FiveJoin | hanabi_game/inc/session.h:16-16 | a run after which five players are in one session |
| LobbyScripts.FivePlay | hanabi_game/inc/session.h:16-16 | a run after which these five are in one game |
| LobbyScripts.MoveInWords | hanabi_game/src/handle_client_helpers.cpp:75-75 | the move takes the players of the entry into the game and leaves its identifier and count |
| LobbyScripts.RefusalChangesNothing | hanabi_game/src/handle_client_helpers.cpp:91-115 | a request to join a session that is not granted changes nothing but that the handler is going to answer it |
| LobbyScripts.RefusedJoinersAreOut | hanabi_game/src/handle_client_helpers.cpp:91-115 | from then on, in every interleaving, that player is in no session and no game and cannot create one; its only step is the refusal, once, and with the refusal it is dropped |
| LobbyScripts.TellingDrops | hanabi_game/src/handle_client_helpers.cpp:91-115 | the refusal logs the failure and drops the player |
| LobbyScripts.FailureIffRefusedAndTold | hanabi_game/src/handle_client_helpers.cpp:91-115 | a failure is in the log if and only if the player asked to join a session, was refused, and was answered after that |
| Server.Session.constructor | hanabi_game/src/session.cpp:10-14 | a roster of the leader alone, counted one |
| Server.Session.MoveFrom | hanabi_game/src/session.cpp:17-23 | the same identifier, count and players in the same order |
| Server.Session.Join | hanabi_game/src/session.cpp:26-45 | lets a player in exactly if there is a leader with an open socket and fewer than five are counted, appends it and counts it, and changes nothing otherwise |
| Server.Server.CreateSession | hanabi_game/src/handle_client_helpers.cpp:24-31 | the critical section takes the step of creating a session under the size of the map, and finds a leader to read exactly if the handler goes on |
| Server.Server.StartRequest | hanabi_game/src/handle_client_helpers.cpp:54-65 | a leader is granted the start exactly if it is not alone |
| Server.Server.MoveRosterOut | hanabi_game/src/handle_client_helpers.cpp:75-75 | the roster goes into the game, and the entry keeps its count without its players |
| Server.Server.EraseSession | hanabi_game/src/handle_client_helpers.cpp:78-80 | the critical section takes the step of erasing one entry |
| Server.Server.TryJoin | hanabi_game/src/handle_client_helpers.cpp:89-108 | the critical section takes the step of joining a given session, and reports a success exactly if the player got in |
| Server.Server.TryJoinAny | hanabi_game/src/handle_client_helpers.cpp:133-157 | the scan under the lock takes the step of joining the first session that accepts |
| Server.Server.Announce | hanabi_game/src/handle_client_helpers.cpp:124-127 | the critical section after a join takes the step that may put a default session into the map |
| Launch.DealWithinDeck | hanabi_game/src/game.cpp:69-73 | the deal gives only unrevealed printed cards if and only if there are at most twelve players |
| Launch.LobbyGamesDealRealCards | hanabi_game/src/game.cpp:69-73 | so after every interleaving no game of the lobby that has players starts with an EMPTY card |
| Launch.PlayGame | hanabi_game/src/handle_client_helpers.cpp:75-83 | the game built from a moved roster that is not empty is played as a run from its deal, with the endings of `GameLoop.GameIsARun`, and with two to five players, the leader first, if the leader is in it |
| Framing.NetworkOrderRoundTrip | common/src/sockets.cpp:11-24 | a 32-bit length survives the change to network byte order and back |
| Framing.NetworkOrderIsBigEndian | common/src/sockets.cpp:11-11 | the four bytes of a length are worth 2^24, 2^16, 2^8 and 1, in this order |
| Framing.HostReadsBigEndian | common/src/sockets.cpp:24-24 | and are read back with these worths |
| Framing.DecodeInBytes | common/src/sockets.cpp:21-31 | a read takes four bytes and as many more as they are worth, and fails exactly when there are not that many |
| Framing.FrameRoundTripIff | common/src/sockets.cpp:10-31 | reading behind a written frame gives the message back and leaves what follows, if and only if the message is shorter than 2^32 bytes |
| Framing.CutStreamDecodesToPrefix | common/src/sockets.cpp:21-31 | a stream cut anywhere is read as exactly the messages whose frames lie wholly before the cut |
| Framing.DecodeAllInvertsEncode | common/src/sockets.cpp:10-31 | reading over and over gives back the messages written, in order |
| Framing.EncodingIsUniquelyDecodable | common/src/sockets.cpp:10-19 | two sequences of messages with the same bytes are the same sequence |
| Framing.Connection.SendBytes | common/src/sockets.cpp:10-19 | appends to the stream four bytes worth the length modulo 2^32, most significant first, and then the message |
| Framing.Connection.ReadBytes | common/src/sockets.cpp:21-40 | takes four bytes off the stream and as many as they are worth, which are the message, or fails and leaves nothing |

## Left out

- Displaying the game: the texts of single cards are modelled, the composed screens, log lines and messages are not.
- The read behind the end of a hand when it is displayed: `displayHands` reads slot 4 of every hand
  (`hanabi_game/src/game.cpp:46`, `hanabi_game/src/game.cpp:51`), and with four or five players hands have four cards.
  What is proved for those player counts takes that read as harmless.
- The game of a moved roster without players: its first turn would look for player 0.
- The prompts sent by the deprecated unframed writer, and the readers that nothing uses any more.
- Protocol buffers, sockets, threads and the accept loop: answers are integers and connections are byte sequences.
- Failing writes, which can strike before or after a change of state.
- The distribution of the shuffle.
- Data races and dangling references in memory: unlocked lookups and references into the map are atomic steps here.
- The moved-from elements that a session's move constructor leaves behind in its source, which is destroyed at once.
- What follows the play of an EMPTY card, or a step on an entry that another handler has erased after a collision.
- 32-bit overflow of the blue tokens: it needs about two billion discards of EMPTY cards.
- The Telegram client, whose in-game part is not finished.
