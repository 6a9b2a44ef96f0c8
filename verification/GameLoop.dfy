/** A whole game as a value: the deal, and then turns parsed from the players' streams of answers. */
module GameLoop {
  import opened Cards
  import opened Decks
  import opened Rules
  import opened Books
  import opened Tokens
  import opened Scoring
  import opened Dialogue

  /** PlayerLost: the stream of the player on turn ended. EmptyPlayed: the behaviour is undefined from here. */
  datatype End = StacksComplete | FusesGone | PlayerLost | EmptyPlayed

  datatype Result = Result(end: End, state: State, trace: seq<Action>, inbox: seq<seq<int>>)

  /** The number of answers in all streams together. */
  function Unread(inbox: seq<seq<int>>): nat {
    if inbox == [] then 0 else |inbox[0]| + Unread(inbox[1..])
  }

  lemma {:induction false} UnreadUpdate(inbox: seq<seq<int>>, p: nat, rest: seq<int>)
    requires p < |inbox|
    ensures Unread(inbox[p := rest]) + |inbox[p]| == Unread(inbox) + |rest|
  {
    if p == 0 {
      assert inbox[p := rest][1..] == inbox[1..];
    } else {
      UnreadUpdate(inbox[1..], p - 1, rest);
      assert inbox[p := rest][1..] == inbox[1..][p - 1 := rest];
    }
  }

  predicate Ready(s: State, p: nat, inbox: seq<seq<int>>) {
    Shape(s) && p < s.numPlayers && |inbox| == s.numPlayers
  }

  /** The game from the turn of player p on, until it ends one way or the other. */
  function PlayOn(s: State, p: nat, inbox: seq<seq<int>>): Result
    requires Ready(s, p, inbox)
    decreases Unread(inbox)
  {
    var q := Parse(s, p, PickAction, inbox[p]);
    var inbox' := inbox[p := q.rest];
    match q.outcome
    case Ended => Result(PlayerLost, s, [], inbox')
    case PlaysEmpty => Result(EmptyPlayed, s, [], inbox')
    case Act(a) =>
      ParsedActionIsLegal(s, p, PickAction, inbox[p]);
      ParseReadsAPrefix(s, p, PickAction, inbox[p], []);
      UnreadUpdate(inbox, p, q.rest);
      var t := Apply(s, p, a);
      if Score(t.table) == 25 then Result(StacksComplete, t, [a], inbox')
      else if t.fuses == 0 then Result(FusesGone, t, [a], inbox')
      else Prepend([a], PlayOn(t, NextSeat(p, s.numPlayers), inbox'))
  }

  /** One turn of playing on. */
  lemma PlayOnTurn(s: State, p: nat, inbox: seq<seq<int>>)
    requires Ready(s, p, inbox)
    ensures var q := Parse(s, p, PickAction, inbox[p]); var rest := inbox[p := q.rest];
            && (q.outcome.Ended? ==> PlayOn(s, p, inbox) == Result(PlayerLost, s, [], rest))
            && (q.outcome.PlaysEmpty? ==> PlayOn(s, p, inbox) == Result(EmptyPlayed, s, [], rest))
            && (q.outcome.Act? ==>
                && Legal(s, p, q.outcome.action)
                && Unread(rest) < Unread(inbox)
                && var t := Apply(s, p, q.outcome.action);
                   PlayOn(s, p, inbox)
                   == if Score(t.table) == 25 then Result(StacksComplete, t, [q.outcome.action], rest)
                      else if t.fuses == 0 then Result(FusesGone, t, [q.outcome.action], rest)
                      else Prepend([q.outcome.action], PlayOn(t, NextSeat(p, s.numPlayers), rest)))
  {
    var q := Parse(s, p, PickAction, inbox[p]);
    ParsedActionIsLegal(s, p, PickAction, inbox[p]);
    ParseReadsAPrefix(s, p, PickAction, inbox[p], []);
    UnreadUpdate(inbox, p, q.rest);
  }

  lemma PrependTwice(a: seq<Action>, b: seq<Action>, r: Result)
    ensures Prepend(a, Prepend(b, r)) == Prepend(a + b, r)
    ensures Prepend([], r) == r
  {
    assert a + (b + r.trace) == a + b + r.trace;
  }

  function Prepend(trace: seq<Action>, r: Result): Result {
    r.(trace := trace + r.trace)
  }

  /** One turn of a run, read from the stream of the player on turn. */
  lemma ParsedTurn(s0: State, trace: seq<Action>, inbox: seq<seq<int>>)
    requires IsRun(s0, trace) && !Over(After(s0, trace)) && |inbox| == s0.numPlayers
    ensures var p := Seat(|trace|, s0.numPlayers); var s := After(s0, trace);
            var q := Parse(s, p, PickAction, inbox[p]);
            && (q.outcome.Ended? ==> q.rest == [])
            && (q.outcome.Act? ==>
                && Legal(s, p, q.outcome.action)
                && IsRun(s0, trace + [q.outcome.action])
                && After(s0, trace + [q.outcome.action]) == Apply(s, p, q.outcome.action)
                && Seat(|trace + [q.outcome.action]|, s0.numPlayers) == NextSeat(p, s0.numPlayers)
                && Unread(inbox[p := q.rest]) < Unread(inbox))
  {
    var p, s := Seat(|trace|, s0.numPlayers), After(s0, trace);
    var q := Parse(s, p, PickAction, inbox[p]);
    ParseReadsAPrefix(s, p, PickAction, inbox[p], []);
    ParsedActionIsLegal(s, p, PickAction, inbox[p]);
    UnreadUpdate(inbox, p, q.rest);
    if q.outcome.Act? {
      RunExtend(s0, trace, q.outcome.action);
    }
  }

  ghost predicate HoldsEmpty(s: State, p: nat) {
    p < |s.hands| && exists k :: 0 <= k < |s.hands[p]| && s.hands[p][k].colour == EMPTY
  }

  /** What playing on from a run leads to. */
  ghost predicate Extends(s0: State, trace: seq<Action>, r: Result)
    requires s0.numPlayers >= 1
  {
    && IsRun(s0, trace)
    && After(s0, trace) == r.state
    && (r.end == StacksComplete <==> Score(r.state.table) == 25)
    && (r.end == FusesGone <==> Score(r.state.table) != 25 && r.state.fuses == 0)
    && |r.inbox| == s0.numPlayers
    && (r.end == PlayerLost ==> r.inbox[Seat(|trace|, s0.numPlayers)] == [])
    && (r.end == EmptyPlayed ==> HoldsEmpty(r.state, Seat(|trace|, s0.numPlayers)))
  }

  lemma ExtendsFurther(s0: State, trace: seq<Action>, a: Action, r: Result)
    requires s0.numPlayers >= 1 && Extends(s0, trace + [a] + r.trace, r)
    ensures Extends(s0, trace + Prepend([a], r).trace, Prepend([a], r))
  {
    assert trace + [a] + r.trace == trace + Prepend([a], r).trace;
  }

  /** Playing on from a run extends that run, turn by turn, and stops as soon as the game is over. */
  lemma {:induction false} PlayOnExtendsRun(s0: State, trace: seq<Action>, inbox: seq<seq<int>>)
    requires IsRun(s0, trace) && !Over(After(s0, trace)) && |inbox| == s0.numPlayers
    ensures var r := PlayOn(After(s0, trace), Seat(|trace|, s0.numPlayers), inbox);
            Extends(s0, trace + r.trace, r)
    decreases Unread(inbox)
  {
    var s, p := After(s0, trace), Seat(|trace|, s0.numPlayers);
    var q := Parse(s, p, PickAction, inbox[p]);
    var r := PlayOn(s, p, inbox);
    ParsedTurn(s0, trace, inbox);
    CommittedActionWasSpelled(s, p, PickAction, inbox[p]);
    if q.outcome.Act? {
      var a := q.outcome.action;
      if !Over(Apply(s, p, a)) {
        PlayOnExtendsRun(s0, trace + [a], inbox[p := q.rest]);
        ExtendsFurther(s0, trace, a, PlayOn(Apply(s, p, a), NextSeat(p, s0.numPlayers), inbox[p := q.rest]));
      }
    } else {
      assert trace + r.trace == trace;
    }
  }

  /**
   * A game, from the deal on, for every shuffle and all streams of answers: its actions form a run in which turn t
   * is taken by player t modulo the number of players; it ends in success exactly with every stack complete, in
   * defeat exactly with the third misplay, and otherwise only because the stream of the player on turn ended, or
   * because that player played an EMPTY card, and then in the state in which that turn began. The last can only
   * happen once the deck is exhausted.
   */
  lemma GameIsARun(s0: State, inbox: seq<seq<int>>)
    requires IsDeal(s0) && |inbox| == s0.numPlayers
    ensures var r := PlayOn(s0, 0, inbox); var p := Seat(|r.trace|, s0.numPlayers);
            && IsRun(s0, r.trace)
            && After(s0, r.trace) == r.state
            && (r.end == StacksComplete <==> AllStacksComplete(r.state.table))
            && (r.end == FusesGone <==> |LedgerOf(s0, r.trace).misplayed| == 3)
            && (r.end == PlayerLost ==> |r.inbox| == s0.numPlayers && r.inbox[p] == [])
            && (r.end == EmptyPlayed ==> HoldsEmpty(r.state, p) && r.state.next == TOTAL_CARDS)
            && |r.trace| <= 111 + 2 * LedgerOf(s0, r.trace).emptyDiscards
  {
    var r := PlayOn(s0, 0, inbox);
    DealIsSound(s0);
    PlayOnExtendsRun(s0, [], inbox);
    assert [] + r.trace == r.trace;
    GameEndsOneWay(s0, r.trace);
    RunIsSound(s0, r.trace);
    FullScoreIsAllStacks(r.state);
    RunsAreBounded(s0, r.trace);
    if r.end == EmptyPlayed {
      assert SoundHand(r.state, r.state.hands[Seat(|r.trace|, s0.numPlayers)]);
    }
  }

  // ----- Streams that are still growing

  /** Every stream of the first is a beginning of the same player's stream in the second. */
  ghost predicate GrewTo(inbox: seq<seq<int>>, longer: seq<seq<int>>) {
    |inbox| == |longer| && forall p :: 0 <= p < |inbox| ==> inbox[p] <= longer[p]
  }

  /** The second game is the first one, or goes on where the first one lost a player. */
  predicate Continues(q: Result, r: Result) {
    && q.trace <= r.trace
    && (q.end != PlayerLost ==> r.end == q.end && r.state == q.state && r.trace == q.trace)
  }

  /** A turn that both games take alike. */
  lemma SharedTurn(s: State, p: nat, inbox: seq<seq<int>>, longer: seq<seq<int>>)
    requires Ready(s, p, inbox) && Ready(s, p, longer)
    requires var q, r := Parse(s, p, PickAction, inbox[p]), Parse(s, p, PickAction, longer[p]);
             && q.outcome.Act?
             && r.outcome == q.outcome
             && Legal(s, p, q.outcome.action)
             && var t := Apply(s, p, q.outcome.action);
                !Over(t) ==> Continues(PlayOn(t, NextSeat(p, s.numPlayers), inbox[p := q.rest]),
                                       PlayOn(t, NextSeat(p, s.numPlayers), longer[p := r.rest]))
    ensures Continues(PlayOn(s, p, inbox), PlayOn(s, p, longer))
  {
    PlayOnTurn(s, p, inbox);
    PlayOnTurn(s, p, longer);
  }

  /**
   * Answers that arrive later only add turns to a game: what was played stays played, and a game that had ended,
   * other than by losing a player, ended as it did. So finite streams describe live connections as well.
   */
  lemma {:induction false} LaterAnswersOnlyAddTurns(s: State, p: nat, inbox: seq<seq<int>>, longer: seq<seq<int>>)
    requires Ready(s, p, inbox) && GrewTo(inbox, longer)
    ensures Continues(PlayOn(s, p, inbox), PlayOn(s, p, longer))
    decreases Unread(inbox)
  {
    var q := Parse(s, p, PickAction, inbox[p]);
    if q.outcome.Ended? {
      PlayOnTurn(s, p, inbox);
    } else {
      ParseOfLonger(s, p, PickAction, inbox[p], longer[p]);
      if q.outcome.PlaysEmpty? {
        PlayOnTurn(s, p, inbox);
        PlayOnTurn(s, p, longer);
      } else {
        var rest := Parse(s, p, PickAction, longer[p]).rest;
        ParsedActionIsLegal(s, p, PickAction, inbox[p]);
        ParseReadsAPrefix(s, p, PickAction, inbox[p], []);
        UnreadUpdate(inbox, p, q.rest);
        var t := Apply(s, p, q.outcome.action);
        if !Over(t) {
          LaterAnswersOnlyAddTurns(t, NextSeat(p, s.numPlayers), inbox[p := q.rest], longer[p := rest]);
        }
        SharedTurn(s, p, inbox, longer);
      }
    }
  }

  // ----- Every run can be played

  /** The answers with which player p enters its actions from turn i on. */
  function AnswersOf(trace: seq<Action>, i: nat, players: nat, p: nat): seq<int>
    requires i <= |trace| && p < players
    decreases |trace| - i
  {
    if i == |trace| then []
    else (if Seat(i, players) == p then Spelling(trace[i]) else []) + AnswersOf(trace, i + 1, players, p)
  }

  function Answers(trace: seq<Action>, i: nat, players: nat): seq<seq<int>>
    requires i <= |trace|
  {
    seq(players, p requires 0 <= p < players => AnswersOf(trace, i, players, p))
  }

  /** The answers of turn i, and then those of the later turns. */
  lemma AnswersSplit(trace: seq<Action>, i: nat, players: nat)
    requires i < |trace| && players >= 1
    ensures var p := Seat(i, players); var inbox, later := Answers(trace, i, players), Answers(trace, i + 1, players);
            inbox[p] == Spelling(trace[i]) + later[p] && inbox[p := later[p]] == later
  {
    var p := Seat(i, players);
    var inbox, later := Answers(trace, i, players), Answers(trace, i + 1, players);
    forall q | 0 <= q < players
      ensures inbox[q] == if q == p then Spelling(trace[i]) + later[q] else later[q]
    {
      assert AnswersOf(trace, i, players, q) == (if q == p then Spelling(trace[i]) else []) + later[q];
    }
  }

  /** A game that played exactly these turns, and stopped only because it was over or waits for an answer. */
  predicate Played(r: Result, trace: seq<Action>, state: State)
    requires Shape(state)
  {
    r.trace == trace && r.state == state && (r.end == PlayerLost <==> !Over(state))
  }

  lemma TurnIsPlayed(s: State, p: nat, a: Action, inbox: seq<seq<int>>, rest: seq<int>)
    requires Ready(s, p, inbox) && Legal(s, p, a) && inbox[p] == Spelling(a) + rest
    ensures var t := Apply(s, p, a);
            if Over(t) then Played(PlayOn(s, p, inbox), [a], t)
            else PlayOn(s, p, inbox) == Prepend([a], PlayOn(t, NextSeat(p, s.numPlayers), inbox[p := rest]))
  {
    SpellingIsParsed(s, p, a, rest);
    PlayOnTurn(s, p, inbox);
  }

  lemma OverIsLast(s0: State, trace: seq<Action>, i: nat)
    requires IsRun(s0, trace) && i < |trace| && Over(After(s0, trace[..i + 1]))
    ensures i + 1 == |trace|
  {
    if i + 1 < |trace| {
      TurnAt(s0, trace, i + 1);
    }
  }

  /** The rest of a run from turn i on, played from the answers that spell it. */
  ghost predicate RestIsPlayed(s0: State, trace: seq<Action>, i: nat)
    requires IsRun(s0, trace) && i <= |trace|
  {
    var players := s0.numPlayers;
    Played(PlayOn(After(s0, trace[..i]), Seat(i, players), Answers(trace, i, players)), trace[i..], After(s0, trace))
  }

  lemma EndIsPlayed(s0: State, trace: seq<Action>)
    requires IsRun(s0, trace) && !Over(After(s0, trace))
    ensures RestIsPlayed(s0, trace, |trace|)
  {
    var players := s0.numPlayers;
    assert trace[..|trace|] == trace && trace[|trace|..] == [];
    PlayOnTurn(After(s0, trace), Seat(|trace|, players), Answers(trace, |trace|, players));
  }

  /** Turn i is played from its spelling, and what comes after it is left to play. */
  lemma TurnOfRunIsPlayed(s0: State, trace: seq<Action>, i: nat)
    requires IsRun(s0, trace) && i < |trace|
    ensures var players, t := s0.numPlayers, After(s0, trace[..i + 1]);
            var r := PlayOn(After(s0, trace[..i]), Seat(i, players), Answers(trace, i, players));
            if Over(t) then Played(r, [trace[i]], t)
            else r == Prepend([trace[i]], PlayOn(t, Seat(i + 1, players), Answers(trace, i + 1, players)))
  {
    var players := s0.numPlayers;
    var p, later := Seat(i, players), Answers(trace, i + 1, players);
    TurnAt(s0, trace, i);
    AnswersSplit(trace, i, players);
    TurnIsPlayed(After(s0, trace[..i]), p, trace[i], Answers(trace, i, players), later[p]);
  }

  lemma TurnBeforeIsPlayed(s0: State, trace: seq<Action>, i: nat)
    requires IsRun(s0, trace) && i < |trace|
    requires Over(After(s0, trace[..i + 1])) || RestIsPlayed(s0, trace, i + 1)
    ensures RestIsPlayed(s0, trace, i)
  {
    TurnOfRunIsPlayed(s0, trace, i);
    assert trace[i..] == [trace[i]] + trace[i + 1..];
    if Over(After(s0, trace[..i + 1])) {
      OverIsLast(s0, trace, i);
      assert trace[..i + 1] == trace && trace[i + 1..] == [];
    }
  }

  /** From turn i of a run on, the answers that spell its actions play exactly the rest of the run. */
  lemma {:induction false} AnswersPlayTheRest(s0: State, trace: seq<Action>, i: nat)
    requires IsRun(s0, trace) && i <= |trace| && !Over(After(s0, trace[..i]))
    ensures RestIsPlayed(s0, trace, i)
    decreases |trace| - i
  {
    if i == |trace| {
      assert trace[..i] == trace;
      EndIsPlayed(s0, trace);
    } else {
      if !Over(After(s0, trace[..i + 1])) {
        AnswersPlayTheRest(s0, trace, i + 1);
      }
      TurnBeforeIsPlayed(s0, trace, i);
    }
  }

  /**
   * Every run can be played: when each player sends the answers that spell its actions and no more, the game takes
   * exactly the turns of the run, and if that does not end it, it waits for the next answer.
   */
  lemma {:induction false} EveryRunIsPlayable(s0: State, trace: seq<Action>)
    requires IsRun(s0, trace) && !Over(s0)
    ensures var r := PlayOn(s0, 0, Answers(trace, 0, s0.numPlayers));
            && r.trace == trace
            && r.state == After(s0, trace)
            && (r.end == PlayerLost <==> !Over(r.state))
  {
    assert trace[..0] == [] && trace[0..] == trace;
    AnswersPlayTheRest(s0, trace, 0);
  }

  // ----- Where every answer went

  /** The answers of player p among those read turn by turn, from turn number first on. */
  function ReadOf(segments: seq<seq<int>>, first: nat, players: nat, p: nat): seq<int>
    requires p < players
  {
    if segments == [] then []
    else (if Seat(first, players) == p then segments[0] else []) + ReadOf(segments[1..], first + 1, players, p)
  }

  /** Each player's stream is what its turns read, and a tail. */
  ghost predicate Split(inbox: seq<seq<int>>, segments: seq<seq<int>>, first: nat, tails: seq<seq<int>>) {
    |tails| == |inbox| && forall p :: 0 <= p < |inbox| ==> inbox[p] == ReadOf(segments, first, |inbox|, p) + tails[p]
  }

  /** After the turns before it, exactly these answers enter the action, none left over. */
  ghost predicate EntersAt(s0: State, before: seq<Action>, answers: seq<int>, a: Action)
    requires s0.numPlayers >= 1 && Shape(s0)
  {
    Parse(After(s0, before), Seat(|before|, s0.numPlayers), PickAction, answers) == Parsed(Act(a), [])
  }

  ghost predicate Enters(s0: State, trace: seq<Action>, segments: seq<seq<int>>, actions: seq<Action>)
    requires s0.numPlayers >= 1 && Shape(s0)
  {
    && |segments| == |actions|
    && forall i :: 0 <= i < |actions| ==> EntersAt(s0, trace + actions[..i], segments[i], actions[i])
  }

  /** What is left unread when the game is over; or else what the last player sent does not enter an action. */
  ghost predicate Leaves(r: Result, turn: nat, tails: seq<seq<int>>)
    requires Shape(r.state) && |tails| == r.state.numPlayers
  {
    if r.end == StacksComplete || r.end == FusesGone then r.inbox == tails
    else
      var p := Seat(turn, r.state.numPlayers);
      var q := Parse(r.state, p, PickAction, tails[p]);
      && q.outcome == (if r.end == PlayerLost then Ended else PlaysEmpty)
      && r.inbox == tails[p := q.rest]
  }

  /** One turn ahead of those that follow. */
  lemma SplitsFurther(
    inbox: seq<seq<int>>, p: nat, read: seq<int>, rest: seq<int>,
    segments: seq<seq<int>>, first: nat, tails: seq<seq<int>>)
    requires p < |inbox| && p == Seat(first, |inbox|) && inbox[p] == read + rest
    requires Split(inbox[p := rest], segments, first + 1, tails)
    ensures Split(inbox, [read] + segments, first, tails)
  {
    var longer := [read] + segments;
    assert longer[1..] == segments;
    forall q | 0 <= q < |inbox|
      ensures inbox[q] == ReadOf(longer, first, |inbox|, q) + tails[q]
    {
      var later := ReadOf(segments, first + 1, |inbox|, q);
      assert inbox[p := rest][q] == later + tails[q];
      assert (if q == p then read else []) + later + tails[q] == (if q == p then read else []) + (later + tails[q]);
    }
  }

  lemma EntersFurther(
    s0: State, trace: seq<Action>, a: Action, read: seq<int>, segments: seq<seq<int>>, actions: seq<Action>)
    requires s0.numPlayers >= 1 && Shape(s0)
    requires EntersAt(s0, trace, read, a) && Enters(s0, trace + [a], segments, actions)
    ensures Enters(s0, trace, [read] + segments, [a] + actions)
  {
    var longer := [a] + actions;
    forall i | 0 <= i < |longer|
      ensures EntersAt(s0, trace + longer[..i], ([read] + segments)[i], longer[i])
    {
      if i == 0 {
        assert trace + longer[..0] == trace;
      } else {
        assert trace + longer[..i] == trace + [a] + actions[..i - 1];
        assert EntersAt(s0, trace + [a] + actions[..i - 1], segments[i - 1], actions[i - 1]);
      }
    }
  }

  /** The answers that one turn reads. */
  lemma TurnReads(s0: State, trace: seq<Action>, inbox: seq<seq<int>>) returns (read: seq<int>)
    requires IsRun(s0, trace) && |inbox| == s0.numPlayers
    ensures var p := Seat(|trace|, s0.numPlayers); var q := Parse(After(s0, trace), p, PickAction, inbox[p]);
            q.outcome.Act? ==> inbox[p] == read + q.rest && EntersAt(s0, trace, read, q.outcome.action)
  {
    var p := Seat(|trace|, s0.numPlayers);
    var q := Parse(After(s0, trace), p, PickAction, inbox[p]);
    ParseReadsAPrefix(After(s0, trace), p, PickAction, inbox[p], []);
    read := inbox[p][..|inbox[p]| - |q.rest|];
    assert read + [] == read;
  }

  /** Segments and tails account for the answers of a game that goes on from the end of trace. */
  ghost predicate AccountFor(
    s0: State, trace: seq<Action>, inbox: seq<seq<int>>,
    r: Result, segments: seq<seq<int>>, tails: seq<seq<int>>)
    requires s0.numPlayers >= 1 && Shape(s0)
  {
    && Split(inbox, segments, |trace|, tails)
    && Enters(s0, trace, segments, r.trace)
    && Shape(r.state) && r.state.numPlayers == |tails|
    && Leaves(r, |trace| + |r.trace|, tails)
  }

  lemma {:induction false} AccountsFurther(
    s0: State, trace: seq<Action>, inbox: seq<seq<int>>, a: Action, read: seq<int>, rest: seq<int>,
    r: Result, segments: seq<seq<int>>, tails: seq<seq<int>>)
    requires s0.numPlayers == |inbox| >= 1 && Shape(s0)
    requires var p := Seat(|trace|, s0.numPlayers);
             && inbox[p] == read + rest && EntersAt(s0, trace, read, a)
             && AccountFor(s0, trace + [a], inbox[p := rest], r, segments, tails)
    ensures AccountFor(s0, trace, inbox, Prepend([a], r), [read] + segments, tails)
  {
    SplitsFurther(inbox, Seat(|trace|, s0.numPlayers), read, rest, segments, |trace|, tails);
    EntersFurther(s0, trace, a, read, segments, r.trace);
  }

  lemma NothingIsSplit(inbox: seq<seq<int>>, first: nat)
    ensures Split(inbox, [], first, inbox)
  {
    forall p | 0 <= p < |inbox|
      ensures inbox[p] == ReadOf([], first, |inbox|, p) + inbox[p]
    {
      assert ReadOf([], first, |inbox|, p) == [];
    }
  }

  lemma {:induction false} StopLeaves(s: State, turn: nat, inbox: seq<seq<int>>)
    requires s.numPlayers >= 1 && Ready(s, Seat(turn, s.numPlayers), inbox)
    requires !Parse(s, Seat(turn, s.numPlayers), PickAction, inbox[Seat(turn, s.numPlayers)]).outcome.Act?
    ensures var r := PlayOn(s, Seat(turn, s.numPlayers), inbox);
            r.trace == [] && r.state == s && Leaves(r, turn, inbox)
  {
    PlayOnTurn(s, Seat(turn, s.numPlayers), inbox);
  }

  lemma {:induction false} LastTurnAccounts(s0: State, trace: seq<Action>, inbox: seq<seq<int>>)
    requires IsRun(s0, trace) && |inbox| == s0.numPlayers
    requires var p := Seat(|trace|, s0.numPlayers); !Parse(After(s0, trace), p, PickAction, inbox[p]).outcome.Act?
    ensures AccountFor(s0, trace, inbox, PlayOn(After(s0, trace), Seat(|trace|, s0.numPlayers), inbox), [], inbox)
  {
    NothingIsSplit(inbox, |trace|);
    StopLeaves(After(s0, trace), |trace|, inbox);
  }

  /**
   * A game reads every player's stream in turns: it takes as many answers as enter one action, in the state of that
   * turn, and not one more, and in the end what is unread is the tail that is left.
   */
  lemma {:induction false} AnswersAreAccountedFor(s0: State, trace: seq<Action>, inbox: seq<seq<int>>)
    returns (segments: seq<seq<int>>, tails: seq<seq<int>>)
    requires IsRun(s0, trace) && !Over(After(s0, trace)) && |inbox| == s0.numPlayers
    ensures AccountFor(s0, trace, inbox, PlayOn(After(s0, trace), Seat(|trace|, s0.numPlayers), inbox), segments, tails)
    decreases Unread(inbox)
  {
    var s, p := After(s0, trace), Seat(|trace|, s0.numPlayers);
    var q := Parse(s, p, PickAction, inbox[p]);
    if !q.outcome.Act? {
      LastTurnAccounts(s0, trace, inbox);
      segments, tails := [], inbox;
    } else {
      var a, later := q.outcome.action, inbox[p := q.rest];
      var read := TurnReads(s0, trace, inbox);
      ParsedTurn(s0, trace, inbox);
      PlayOnTurn(s, p, inbox);
      var r: Result;
      if Over(Apply(s, p, a)) {
        r := PlayOn(s, p, inbox).(trace := []);
        segments, tails := [], later;
        NothingIsSplit(later, |trace| + 1);
      } else {
        r := PlayOn(Apply(s, p, a), NextSeat(p, s0.numPlayers), later);
        segments, tails := AnswersAreAccountedFor(s0, trace + [a], later);
      }
      AccountsFurther(s0, trace, inbox, a, read, q.rest, r, segments, tails);
      segments := [read] + segments;
    }
  }
}
