/**
 * What every interleaving of the lobby's handlers keeps, whatever identifiers it uses; and what it keeps besides as
 * long as no two handlers own the same entry.
 */
module LobbySafety {
  import opened Lobby

  predicate Leads(stage: Stage) {
    stage.Waiting? || stage.Closing? || stage.Starting? || stage.Moving?
  }

  predicate WasAdmitted(stage: Stage) {
    stage.Admitted? || stage.Announcing? || stage.Settled?
  }

  /** A player who has not led a session. */
  predicate NeverLed(s: State, p: Player) {
    p !in s.stage || s.stage[p].Arrived? || s.stage[p].NoneFound? || s.stage[p].Refused? || s.stage[p].Crashed?
    || WasAdmitted(s.stage[p])
  }

  // ----- The kinds of steps

  /** An open session lets an arrived player in. */
  predicate IsAdmitted(s: State, p: Player, id: int) {
    p in s.stage && s.stage[p].Arrived? && id in s.sessions && Accepts(s.sessions[id], s.closed)
  }

  predicate IsTurnedAway(s: State, p: Player, next: Stage) {
    p in s.stage && s.stage[p].Arrived? && (next.Refused? || next.NoneFound?)
  }

  function TurnedAway(s: State, p: Player, next: Stage): State {
    s.(stage := s.stage[p := next])
  }

  /** A request to join either way lets the player into one session, or only moves its handler on. */
  lemma JoinStep(s: State, l: Label) returns (admitted: bool, id: int, next: Stage)
    requires Enabled(s, l) && (l.JoinSession? || l.JoinRandom?)
    ensures if admitted then IsAdmitted(s, l.p, id) && Next(s, l) == Admit(s, l.p, id)
            else IsTurnedAway(s, l.p, next) && Next(s, l) == TurnedAway(s, l.p, next)
  {
    admitted, id, next := false, 0, Refused;
    if l.JoinSession? {
      id := l.id;
      admitted := id in s.sessions && Accepts(s.sessions[id], s.closed);
    } else {
      FirstAcceptingIsFirst(s.sessions, l.order, s.closed);
      var found := FirstAccepting(s.sessions, l.order, s.closed);
      if found.At? {
        admitted, id := true, found.id;
      } else {
        next := NoneFound;
      }
    }
  }

  /** A step that moves no player and adds no join: it moves one handler on, and at most acknowledges or reads. */
  predicate IsQuiet(l: Label) {
    l.Connect? || l.CloseSocket? || l.LoseLeader? || l.StartMessage? || l.AnnounceStart?
    || l.AckJoin? || l.AnnounceJoin? || l.AckRefusal?
  }

  // ----- Counts

  /** A roster with its leader in it: between one and five players, correctly counted. */
  predicate Staffed(r: Roster) {
    1 <= |r.players| == r.numPlayers <= MAX_PLAYERS
  }

  ghost predicate Counted(s: State) {
    forall id :: id in s.sessions && s.sessions[id].players != [] ==> Staffed(s.sessions[id])
  }

  lemma StepKeepsCounted(s: State, l: Label)
    requires Counted(s) && Enabled(s, l)
    ensures Counted(Next(s, l))
  {
    if l.JoinSession? || l.JoinRandom? {
      var admitted, id, next := JoinStep(s, l);
    }
  }

  // ----- Places

  /** A player is held here: by its own handler, in a session, in a game, or nowhere any more. */
  predicate Holds(s: State, p: Player, place: Place) {
    match place
    case WithHandler => p in s.stage && (s.stage[p].Arrived? || s.stage[p].NoneFound? || s.stage[p].Refused?)
    case InSession(id, k) => id in s.sessions && k < |s.sessions[id].players| && s.sessions[id].players[k] == p
    case InGame(h, k) => h in s.games && k < |s.games[h]| && s.games[h][k] == p
    case Dropped => p in s.dropped
  }

  /** The recorded place of every connected player is where it is held, and it is held nowhere else. */
  ghost predicate Placed(s: State) {
    && s.place.Keys == s.stage.Keys
    && (forall p :: p in s.stage ==> Holds(s, p, s.place[p]))
    && (forall p, place :: Holds(s, p, place) ==> p in s.stage && s.place[p] == place)
  }

  lemma AdmitKeepsPlaced(s: State, p: Player, id: int)
    requires Placed(s) && IsAdmitted(s, p, id)
    ensures Placed(Admit(s, p, id))
  {
    var t := Admit(s, p, id);
    assert Holds(s, p, WithHandler);
    forall q, place | Holds(t, q, place)
      ensures q in t.stage && t.place[q] == place
    {
      assert q != p ==> Holds(s, q, place);
      if q == p {
        assert place != t.place[p] ==> Holds(s, p, place);
      }
    }
    forall q | q in t.stage
      ensures Holds(t, q, t.place[q])
    {
      assert Holds(s, q, s.place[q]);
    }
  }

  lemma CreateKeepsPlaced(s: State, p: Player)
    requires Placed(s) && Enabled(s, Create(p))
    ensures Placed(Next(s, Create(p)))
  {
    var t := Next(s, Create(p));
    assert Holds(s, p, WithHandler);
    forall q, place | Holds(t, q, place)
      ensures q in t.stage && t.place[q] == place
    {
      assert q != p ==> Holds(s, q, place);
      if q == p {
        assert place != t.place[p] ==> Holds(s, p, place);
      }
    }
    forall q | q in t.stage
      ensures Holds(t, q, t.place[q])
    {
      assert Holds(s, q, s.place[q]);
    }
  }

  lemma MoveKeepsHeld(s: State, p: Player, q: Player)
    requires Placed(s) && Enabled(s, MoveRoster(p)) && p !in s.games && q in s.stage
    ensures var t := Next(s, MoveRoster(p)); q in t.place && Holds(t, q, t.place[q])
  {
    assert Holds(s, q, s.place[q]);
  }

  lemma MoveKeepsUnique(s: State, p: Player, q: Player, place: Place)
    requires Placed(s) && Enabled(s, MoveRoster(p)) && p !in s.games && Holds(Next(s, MoveRoster(p)), q, place)
    ensures q in s.stage && Next(s, MoveRoster(p)).place[q] == place
  {
    if place.InGame? && place.leader == p {
      assert Holds(s, q, InSession(s.stage[p].id, place.index));
    } else {
      assert Holds(s, q, place);
    }
  }

  lemma MoveKeepsPlaced(s: State, p: Player)
    requires Placed(s) && Enabled(s, MoveRoster(p)) && p !in s.games
    ensures Placed(Next(s, MoveRoster(p)))
  {
    var t := Next(s, MoveRoster(p));
    forall q | q in t.stage
      ensures Holds(t, q, t.place[q])
    {
      MoveKeepsHeld(s, p, q);
    }
    forall q, place | Holds(t, q, place)
      ensures q in t.stage && t.place[q] == place
    {
      MoveKeepsUnique(s, p, q, place);
    }
  }

  lemma LostPlayersWereInSession(s: State, id: int, q: Player)
    requires Placed(s) && id in s.sessions && q in s.sessions[id].players
    ensures q in s.stage && s.place[q].InSession? && s.place[q].id == id
  {
    var k :| 0 <= k < |s.sessions[id].players| && s.sessions[id].players[k] == q;
    assert Holds(s, q, InSession(id, k));
  }

  lemma EraseKeepsHeld(s: State, p: Player, q: Player)
    requires Placed(s) && Enabled(s, Erase(p)) && q in s.stage
    ensures var t := Next(s, Erase(p)); q in t.place && Holds(t, q, t.place[q])
  {
    assert Holds(s, q, s.place[q]);
  }

  lemma EraseKeepsUnique(s: State, p: Player, q: Player, place: Place)
    requires Placed(s) && Enabled(s, Erase(p)) && Holds(Next(s, Erase(p)), q, place)
    ensures q in s.stage && Next(s, Erase(p)).place[q] == place
  {
    var id := s.stage[p].id;
    if id in s.sessions && q in s.sessions[id].players {
      LostPlayersWereInSession(s, id, q);
    }
    assert Holds(s, q, place) || (place == Dropped && id in s.sessions && q in s.sessions[id].players);
  }

  lemma EraseKeepsPlaced(s: State, p: Player)
    requires Placed(s) && Enabled(s, Erase(p))
    ensures Placed(Next(s, Erase(p)))
  {
    var t := Next(s, Erase(p));
    forall q | q in t.stage
      ensures Holds(t, q, t.place[q])
    {
      EraseKeepsHeld(s, p, q);
    }
    forall q, place | Holds(t, q, place)
      ensures q in t.stage && t.place[q] == place
    {
      EraseKeepsUnique(s, p, q, place);
    }
  }

  /** A step that leaves every roster and game alone, and the handler of p with or without its player as before. */
  lemma QuietKeepsPlaced(s: State, t: State, p: Player)
    requires Placed(s) && p in s.stage && p in t.stage && t.stage == s.stage[p := t.stage[p]]
    requires t.games == s.games && t.dropped == s.dropped && t.place == s.place
    requires forall id :: id in s.sessions ==> id in t.sessions && t.sessions[id] == s.sessions[id]
    requires forall id :: id in t.sessions && id !in s.sessions ==> t.sessions[id].players == []
    requires Holds(s, p, WithHandler) <==> Holds(t, p, WithHandler)
    ensures Placed(t)
  {
    forall q | q in t.stage
      ensures Holds(t, q, t.place[q])
    {
      assert Holds(s, q, s.place[q]);
    }
    forall q, place | Holds(t, q, place)
      ensures q in t.stage && t.place[q] == place
    {
      assert Holds(s, q, place);
    }
  }

  lemma ConnectKeepsPlaced(s: State, p: Player)
    requires Placed(s) && Enabled(s, Connect(p))
    ensures Placed(Next(s, Connect(p)))
  {
    var t := Next(s, Connect(p));
    forall q | q in t.stage
      ensures Holds(t, q, t.place[q])
    {
      assert q in s.stage ==> Holds(s, q, s.place[q]);
    }
    forall q, place | Holds(t, q, place)
      ensures q in t.stage && t.place[q] == place
    {
      assert Holds(s, q, place) || (q == p && place == WithHandler);
    }
  }

  lemma AckRefusalKeepsPlaced(s: State, p: Player)
    requires Placed(s) && Enabled(s, AckRefusal(p))
    ensures Placed(Next(s, AckRefusal(p)))
  {
    var t := Next(s, AckRefusal(p));
    assert Holds(s, p, WithHandler);
    forall q | q in t.stage
      ensures Holds(t, q, t.place[q])
    {
      assert Holds(s, q, s.place[q]);
    }
    forall q, place | Holds(t, q, place)
      ensures q in t.stage && t.place[q] == place
    {
      assert Holds(s, q, place) || (q == p && place == Dropped);
    }
  }

  lemma TurnedAwayKeepsPlaced(s: State, p: Player, next: Stage)
    requires Placed(s) && IsTurnedAway(s, p, next)
    ensures Placed(TurnedAway(s, p, next))
  {
    var t := TurnedAway(s, p, next);
    forall q | q in t.stage
      ensures Holds(t, q, t.place[q])
    {
      assert Holds(s, q, s.place[q]);
    }
    forall q, place | Holds(t, q, place)
      ensures q in t.stage && t.place[q] == place
    {
      assert Holds(s, q, place);
    }
  }

  lemma QuietStepKeepsPlaced(s: State, l: Label)
    requires Placed(s) && IsQuiet(l) && Enabled(s, l)
    ensures Placed(Next(s, l))
  {
    if l.Connect? {
      ConnectKeepsPlaced(s, l.p);
    } else if l.AckRefusal? {
      AckRefusalKeepsPlaced(s, l.p);
    } else {
      QuietKeepsPlaced(s, Next(s, l), l.p);
    }
  }

  lemma StepKeepsPlaced(s: State, l: Label)
    requires Placed(s) && GamesHaveLeft(s) && Enabled(s, l)
    ensures Placed(Next(s, l))
  {
    if l.JoinSession? || l.JoinRandom? {
      var admitted, id, next := JoinStep(s, l);
      if admitted {
        AdmitKeepsPlaced(s, l.p, id);
      } else {
        TurnedAwayKeepsPlaced(s, l.p, next);
      }
    } else if l.Create? {
      CreateKeepsPlaced(s, l.p);
    } else if l.MoveRoster? {
      MoveKeepsPlaced(s, l.p);
    } else if l.Erase? {
      EraseKeepsPlaced(s, l.p);
    } else {
      QuietStepKeepsPlaced(s, l);
    }
  }

  // ----- Seats

  /** The handler of a player who sits in a session: first in it as its leader, or behind as one who has joined. */
  predicate SeatFits(s: State, p: Player)
    requires p in s.stage && p in s.place
  {
    s.place[p].InSession? ==>
      var stage, id := s.stage[p], s.place[p].id;
      if s.place[p].index > 0 then WasAdmitted(stage)
      else
        && Leads(stage)
        && stage.id == id
        && (stage.Starting? || stage.Moving? ==> id in s.sessions && |s.sessions[id].players| >= 2)
  }

  ghost predicate SeatsFit(s: State) {
    forall p :: p in s.stage && p in s.place ==> SeatFits(s, p)
  }

  /** So every entry with players is led by the handler of its first player. */
  lemma EntryIsLed(s: State, id: int)
    requires Placed(s) && SeatsFit(s) && id in s.sessions && s.sessions[id].players != []
    ensures var leader := s.sessions[id].players[0];
            && leader in s.stage
            && Leads(s.stage[leader])
            && s.stage[leader].id == id
            && s.place[leader] == InSession(id, 0)
  {
    var leader := s.sessions[id].players[0];
    assert Holds(s, leader, InSession(id, 0));
    assert SeatFits(s, leader);
  }

  lemma AdmitKeepsSeats(s: State, p: Player, id: int)
    requires Placed(s) && SeatsFit(s) && IsAdmitted(s, p, id)
    ensures SeatsFit(Admit(s, p, id))
  {
    var t := Admit(s, p, id);
    forall q | q in t.stage && q in t.place
      ensures SeatFits(t, q)
    {
      assert SeatFits(s, q);
    }
  }

  lemma TurnedAwayKeepsSeats(s: State, p: Player, next: Stage)
    requires Placed(s) && SeatsFit(s) && IsTurnedAway(s, p, next)
    ensures SeatsFit(TurnedAway(s, p, next))
  {
    assert Holds(s, p, WithHandler);
    var t := TurnedAway(s, p, next);
    forall q | q in t.stage && q in t.place
      ensures SeatFits(t, q)
    {
      assert SeatFits(s, q);
    }
  }

  lemma CreateKeepsSeats(s: State, p: Player)
    requires Placed(s) && SeatsFit(s) && Enabled(s, Create(p))
    ensures SeatsFit(Next(s, Create(p)))
  {
    var t := Next(s, Create(p));
    forall q | q in t.stage && q in t.place
      ensures SeatFits(t, q)
    {
      assert SeatFits(s, q);
    }
  }

  lemma MoveKeepsSeats(s: State, p: Player)
    requires Placed(s) && SeatsFit(s) && Enabled(s, MoveRoster(p))
    ensures SeatsFit(Next(s, MoveRoster(p)))
  {
    var t := Next(s, MoveRoster(p));
    forall q | q in t.stage && q in t.place
      ensures SeatFits(t, q)
    {
      assert SeatFits(s, q);
    }
  }

  lemma EraseKeepsSeats(s: State, p: Player)
    requires Placed(s) && SeatsFit(s) && Enabled(s, Erase(p))
    ensures SeatsFit(Next(s, Erase(p)))
  {
    var t := Next(s, Erase(p));
    forall q | q in t.stage && q in t.place
      ensures SeatFits(t, q)
    {
      assert SeatFits(s, q);
      assert Holds(s, q, s.place[q]);
    }
  }

  lemma StartKeepsSeats(s: State, p: Player)
    requires Counted(s) && Placed(s) && SeatsFit(s) && Enabled(s, StartMessage(p))
    ensures SeatsFit(Next(s, StartMessage(p)))
  {
    var t := Next(s, StartMessage(p));
    assert SeatFits(s, p) && Holds(s, p, s.place[p]);
    forall q | q in t.stage && q in t.place
      ensures SeatFits(t, q)
    {
      assert SeatFits(s, q);
    }
  }

  lemma QuietKeepsSeats(s: State, l: Label)
    requires Placed(s) && SeatsFit(s) && IsQuiet(l) && !l.StartMessage? && Enabled(s, l)
    ensures SeatsFit(Next(s, l))
  {
    var t := Next(s, l);
    forall q | q in t.stage && q in t.place
      ensures SeatFits(t, q)
    {
      if q in s.stage {
        assert SeatFits(s, q);
      }
    }
  }

  lemma StepKeepsSeats(s: State, l: Label)
    requires Counted(s) && Placed(s) && SeatsFit(s) && Enabled(s, l)
    ensures SeatsFit(Next(s, l))
  {
    if l.JoinSession? || l.JoinRandom? {
      var admitted, id, next := JoinStep(s, l);
      if admitted {
        AdmitKeepsSeats(s, l.p, id);
      } else {
        TurnedAwayKeepsSeats(s, l.p, next);
      }
    } else if l.Create? {
      CreateKeepsSeats(s, l.p);
    } else if l.MoveRoster? {
      MoveKeepsSeats(s, l.p);
    } else if l.Erase? {
      EraseKeepsSeats(s, l.p);
    } else if l.StartMessage? {
      StartKeepsSeats(s, l.p);
    } else {
      QuietKeepsSeats(s, l);
    }
  }

  // ----- Games

  predicate HasLeft(stage: Stage) {
    stage.Erasing? || stage.Playing?
  }

  /** A game with its leader in it has the leader first and somebody else behind; no game has more than five players. */
  predicate IsSized(game: seq<Player>, h: Player) {
    |game| <= MAX_PLAYERS && (h in game ==> |game| >= 2 && game[0] == h)
  }

  /** The players with a game are those whose handlers have moved a roster. */
  ghost predicate GamesHaveLeft(s: State) {
    && (forall h :: h in s.games <==> h in s.stage && HasLeft(s.stage[h]))
    && (forall h :: h in s.games ==> IsSized(s.games[h], h))
  }

  lemma MovedRosterIsSized(s: State, p: Player)
    requires Counted(s) && Placed(s) && SeatsFit(s) && Enabled(s, MoveRoster(p))
    ensures IsSized(s.sessions[s.stage[p].id].players, p)
  {
    var id := s.stage[p].id;
    var players := s.sessions[id].players;
    if p in players {
      var k :| 0 <= k < |players| && players[k] == p;
      assert Holds(s, p, InSession(id, k));
      assert SeatFits(s, p);
    }
  }

  /** A step that builds no game, and does not take its handler to or from the stages of one. */
  lemma OtherKeepsGames(s: State, t: State, p: Player)
    requires GamesHaveLeft(s) && t.games == s.games && p in t.stage && t.stage == s.stage[p := t.stage[p]]
    requires HasLeft(t.stage[p]) <==> p in s.stage && HasLeft(s.stage[p])
    ensures GamesHaveLeft(t)
  {
    forall h
      ensures h in t.games <==> h in t.stage && HasLeft(t.stage[h])
    {
      assert h in s.games <==> h in s.stage && HasLeft(s.stage[h]);
    }
  }

  lemma MoveKeepsGames(s: State, p: Player)
    requires Counted(s) && Placed(s) && SeatsFit(s) && GamesHaveLeft(s) && Enabled(s, MoveRoster(p))
    ensures GamesHaveLeft(Next(s, MoveRoster(p)))
  {
    var t := Next(s, MoveRoster(p));
    MovedRosterIsSized(s, p);
    forall h | h in t.games
      ensures IsSized(t.games[h], h)
    {
      assert h != p ==> h in s.games;
    }
  }

  /** The steps other than a join and a move: nobody leaves for a game, or comes back from one. */
  lemma OtherStepStays(s: State, l: Label)
    requires Enabled(s, l) && (l.Create? || l.Erase? || IsQuiet(l))
    ensures var t := Next(s, l);
            && t.games == s.games
            && l.p in t.stage
            && t.stage == s.stage[l.p := t.stage[l.p]]
            && (HasLeft(t.stage[l.p]) <==> l.p in s.stage && HasLeft(s.stage[l.p]))
  {
    var t := Next(s, l);
    if l.Connect? || l.CloseSocket? {
      assert t.games == s.games;
    } else if l.Create? || l.Erase? {
      assert t.games == s.games;
    } else {
      assert t.games == s.games;
    }
  }

  lemma StepKeepsGames(s: State, l: Label)
    requires Counted(s) && Placed(s) && SeatsFit(s) && GamesHaveLeft(s) && Enabled(s, l)
    ensures GamesHaveLeft(Next(s, l))
  {
    if l.MoveRoster? {
      MoveKeepsGames(s, l.p);
    } else if l.JoinSession? || l.JoinRandom? {
      var admitted, id, next := JoinStep(s, l);
      OtherKeepsGames(s, if admitted then Admit(s, l.p, id) else TurnedAway(s, l.p, next), l.p);
    } else {
      OtherStepStays(s, l);
      OtherKeepsGames(s, Next(s, l), l.p);
    }
  }

  // ----- The log

  /** The players who joined a leader, in the order in which they did. */
  function JoinersOf(log: seq<Event>, leader: Player): seq<Player> {
    if log == [] then []
    else
      var n := |log| - 1;
      JoinersOf(log[..n], leader) + if log[n].Join? && log[n].leader == leader then [log[n].joiner] else []
  }

  lemma JoinersOfAppend(log: seq<Event>, e: Event, leader: Player)
    ensures JoinersOf(log + [e], leader)
            == if e.Join? && e.leader == leader then JoinersOf(log, leader) + [e.joiner] else JoinersOf(log, leader)
  {
    assert (log + [e])[..|log|] == log;
  }

  /** Nobody has joined a player who has not led a session. */
  ghost predicate FreshLeadersAreAlone(s: State) {
    forall p :: NeverLed(s, p) ==> JoinersOf(s.log, p) == []
  }

  /** A roster is its first player followed by those who joined that player, in the order in which they did. */
  ghost predicate FollowsLog(players: seq<Player>, log: seq<Event>) {
    players != [] ==> players == [players[0]] + JoinersOf(log, players[0])
  }

  ghost predicate RostersFollowLog(s: State) {
    && FreshLeadersAreAlone(s)
    && (forall id :: id in s.sessions ==> FollowsLog(s.sessions[id].players, s.log))
    && (forall h :: h in s.games ==> FollowsLog(s.games[h], s.log))
  }

  lemma AdmitKeepsAlone(s: State, p: Player, id: int)
    requires Placed(s) && SeatsFit(s) && FreshLeadersAreAlone(s) && IsAdmitted(s, p, id)
    ensures FreshLeadersAreAlone(Admit(s, p, id))
  {
    var leader := s.sessions[id].players[0];
    EntryIsLed(s, id);
    forall q | NeverLed(Admit(s, p, id), q)
      ensures JoinersOf(Admit(s, p, id).log, q) == []
    {
      assert NeverLed(s, q);
      JoinersOfAppend(s.log, Join(p, leader), q);
    }
  }

  /** A join leaves the rosters of other first players as they were. */
  lemma OthersFollowLog(players: seq<Player>, log: seq<Event>, p: Player, leader: Player)
    requires FollowsLog(players, log) && (players != [] ==> players[0] != leader)
    ensures FollowsLog(players, log + [Join(p, leader)])
  {
    if players != [] {
      JoinersOfAppend(log, Join(p, leader), players[0]);
    }
  }

  lemma AdmitKeepsRosters(s: State, p: Player, id: int)
    requires Placed(s) && SeatsFit(s) && RostersFollowLog(s) && IsAdmitted(s, p, id)
    ensures RostersFollowLog(Admit(s, p, id))
  {
    var leader := s.sessions[id].players[0];
    var t := Admit(s, p, id);
    AdmitKeepsAlone(s, p, id);
    assert Holds(s, leader, InSession(id, 0));
    forall i | i in t.sessions
      ensures FollowsLog(t.sessions[i].players, t.log)
    {
      if i == id {
        assert FollowsLog(s.sessions[id].players, s.log);
        JoinersOfAppend(s.log, Join(p, leader), leader);
      } else {
        assert s.sessions[i].players != [] ==> Holds(s, s.sessions[i].players[0], InSession(i, 0));
        OthersFollowLog(s.sessions[i].players, s.log, p, leader);
      }
    }
    forall h | h in t.games
      ensures FollowsLog(t.games[h], t.log)
    {
      assert s.games[h] != [] ==> Holds(s, s.games[h][0], InGame(h, 0));
      OthersFollowLog(s.games[h], s.log, p, leader);
    }
  }

  /** A step that adds no join, makes no roster but by a move or by a new leader, and makes nobody a fresh leader. */
  lemma OtherKeepsRosters(s: State, t: State)
    requires RostersFollowLog(s)
    requires t.log == s.log || (exists e: Event :: !e.Join? && t.log == s.log + [e])
    requires forall q :: NeverLed(t, q) ==> NeverLed(s, q)
    requires forall id :: id in t.sessions ==>
               var players := t.sessions[id].players;
               || (id in s.sessions && players == s.sessions[id].players)
               || players == []
               || (|players| == 1 && NeverLed(s, players[0]))
    requires forall h :: h in t.games ==>
               || (h in s.games && t.games[h] == s.games[h])
               || (exists id :: id in s.sessions && t.games[h] == s.sessions[id].players)
    ensures RostersFollowLog(t)
  {
    forall q
      ensures JoinersOf(t.log, q) == JoinersOf(s.log, q)
    {
      if t.log != s.log {
        var e: Event :| !e.Join? && t.log == s.log + [e];
        JoinersOfAppend(s.log, e, q);
      }
    }
    forall id | id in t.sessions
      ensures FollowsLog(t.sessions[id].players, t.log)
    {
      assert id in s.sessions ==> FollowsLog(s.sessions[id].players, s.log);
    }
    forall h | h in t.games
      ensures FollowsLog(t.games[h], t.log)
    {
      assert h in s.games ==> FollowsLog(s.games[h], s.log);
      assert forall id :: id in s.sessions ==> FollowsLog(s.sessions[id].players, s.log);
    }
  }

  lemma CreateKeepsRosters(s: State, p: Player)
    requires RostersFollowLog(s) && Enabled(s, Create(p))
    ensures RostersFollowLog(Next(s, Create(p)))
  {
    assert NeverLed(s, p);
    OtherKeepsRosters(s, Next(s, Create(p)));
  }

  lemma MoveKeepsRosters(s: State, p: Player)
    requires RostersFollowLog(s) && Enabled(s, MoveRoster(p))
    ensures RostersFollowLog(Next(s, MoveRoster(p)))
  {
    var e := Move(p);
    assert !e.Join? && Next(s, MoveRoster(p)).log == s.log + [e];
    OtherKeepsRosters(s, Next(s, MoveRoster(p)));
  }

  lemma AckKeepsRosters(s: State, l: Label)
    requires RostersFollowLog(s) && Enabled(s, l) && (l.AckJoin? || l.AckRefusal?)
    ensures RostersFollowLog(Next(s, l))
  {
    var e := if l.AckJoin? then AckSuccess(l.p) else AckFailure(l.p);
    assert !e.Join? && Next(s, l).log == s.log + [e];
    OtherKeepsRosters(s, Next(s, l));
  }

  lemma StepKeepsRosters(s: State, l: Label)
    requires Placed(s) && SeatsFit(s) && RostersFollowLog(s) && Enabled(s, l)
    ensures RostersFollowLog(Next(s, l))
  {
    if l.JoinSession? || l.JoinRandom? {
      var admitted, id, next := JoinStep(s, l);
      if admitted {
        AdmitKeepsRosters(s, l.p, id);
      } else {
        OtherKeepsRosters(s, TurnedAway(s, l.p, next));
      }
    } else if l.Create? {
      CreateKeepsRosters(s, l.p);
    } else if l.MoveRoster? {
      MoveKeepsRosters(s, l.p);
    } else if l.AckJoin? || l.AckRefusal? {
      AckKeepsRosters(s, l);
    } else {
      OtherKeepsRosters(s, Next(s, l));
    }
  }

  /** What the log says of moves and acknowledgements. */
  ghost predicate LogAgrees(s: State) {
    && (forall h :: Move(h) in s.log <==> h in s.games)
    && (forall j, h :: Join(j, h) in s.log ==> j in s.stage && WasAdmitted(s.stage[j]))
    && (forall j :: AckFailure(j) in s.log ==> j in s.stage && s.stage[j].Gone?)
    && (forall j :: AckSuccess(j) in s.log <==> j in s.stage && (s.stage[j].Announcing? || s.stage[j].Settled?))
    && (forall j :: j in s.stage && WasAdmitted(s.stage[j]) ==> exists h :: Join(j, h) in s.log)
  }

  lemma LogGrows(log: seq<Event>, e: Event)
    ensures forall d :: d in log + [e] <==> d in log || d == e
  {
  }

  lemma AdmitKeepsLog(s: State, p: Player, id: int)
    requires LogAgrees(s) && IsAdmitted(s, p, id)
    ensures LogAgrees(Admit(s, p, id))
  {
    var t, e := Admit(s, p, id), Join(p, s.sessions[id].players[0]);
    LogGrows(s.log, e);
    forall j | j in t.stage && WasAdmitted(t.stage[j])
      ensures exists h :: Join(j, h) in t.log
    {
      if j == p {
        assert e in t.log;
      } else {
        var h :| Join(j, h) in s.log;
        assert Join(j, h) in t.log;
      }
    }
  }

  /** A step of one handler that adds one event other than a join. */
  lemma OtherKeepsLog(s: State, t: State, p: Player, e: Event)
    requires LogAgrees(s) && t.log == s.log + [e] && p in t.stage && t.stage == s.stage[p := t.stage[p]]
    requires e == Move(p) || e == AckSuccess(p) || e == AckFailure(p)
    requires t.games.Keys == if e == Move(p) then s.games.Keys + {p} else s.games.Keys
    requires WasAdmitted(t.stage[p]) <==> p in s.stage && WasAdmitted(s.stage[p])
    requires p in s.stage && s.stage[p].Gone? ==> t.stage[p].Gone?
    requires e == AckFailure(p) ==> t.stage[p].Gone?
    requires (t.stage[p].Announcing? || t.stage[p].Settled?)
             <==> e == AckSuccess(p) || (p in s.stage && (s.stage[p].Announcing? || s.stage[p].Settled?))
    ensures LogAgrees(t)
  {
    LogGrows(s.log, e);
    forall j | j in t.stage && WasAdmitted(t.stage[j])
      ensures exists h :: Join(j, h) in t.log
    {
      var h :| Join(j, h) in s.log;
      assert Join(j, h) in t.log;
    }
  }

  /** A step that logs nothing, of a handler that has not joined anybody and is not dismissed by it. */
  predicate IsSilent(s: State, t: State, p: Player) {
    && t.log == s.log && t.games == s.games && p in t.stage && t.stage == s.stage[p := t.stage[p]]
    && (WasAdmitted(t.stage[p]) <==> p in s.stage && WasAdmitted(s.stage[p]))
    && (p in s.stage && s.stage[p].Gone? ==> t.stage[p].Gone?)
    && ((t.stage[p].Announcing? || t.stage[p].Settled?)
        <==> p in s.stage && (s.stage[p].Announcing? || s.stage[p].Settled?))
  }

  lemma SilentKeepsLog(s: State, t: State, p: Player)
    requires LogAgrees(s) && IsSilent(s, t, p)
    ensures LogAgrees(t)
  {
  }

  lemma EntryStepIsSilent(s: State, l: Label)
    requires Enabled(s, l) && (l.Create? || l.Erase?)
    ensures IsSilent(s, Next(s, l), l.p)
  {
  }

  lemma QuietStepIsSilent(s: State, l: Label)
    requires Enabled(s, l) && IsQuiet(l) && !l.AckJoin? && !l.AckRefusal?
    ensures IsSilent(s, Next(s, l), l.p)
  {
  }

  lemma AckKeepsLog(s: State, l: Label)
    requires LogAgrees(s) && Enabled(s, l) && (l.AckJoin? || l.AckRefusal?)
    ensures LogAgrees(Next(s, l))
  {
    OtherKeepsLog(s, Next(s, l), l.p, if l.AckJoin? then AckSuccess(l.p) else AckFailure(l.p));
  }

  lemma StepKeepsLogAgrees(s: State, l: Label)
    requires LogAgrees(s) && Enabled(s, l)
    ensures LogAgrees(Next(s, l))
  {
    if l.JoinSession? || l.JoinRandom? {
      var admitted, id, next := JoinStep(s, l);
      if admitted {
        AdmitKeepsLog(s, l.p, id);
      } else {
        SilentKeepsLog(s, TurnedAway(s, l.p, next), l.p);
      }
    } else if l.MoveRoster? {
      OtherKeepsLog(s, Next(s, l), l.p, Move(l.p));
    } else if l.AckJoin? || l.AckRefusal? {
      AckKeepsLog(s, l);
    } else if l.Create? || l.Erase? {
      EntryStepIsSilent(s, l);
      SilentKeepsLog(s, Next(s, l), l.p);
    } else {
      QuietStepIsSilent(s, l);
      SilentKeepsLog(s, Next(s, l), l.p);
    }
  }

  /** No join comes after the move of a roster by the one who is joined. */
  ghost predicate JoinsPrecedeMoves(log: seq<Event>) {
    forall i, k :: 0 <= i < k < |log| && log[i].Move? && log[k].Join? ==> log[i].leader != log[k].leader
  }

  lemma AdmitKeepsJoinsFirst(s: State, p: Player, id: int)
    requires Placed(s) && SeatsFit(s) && GamesHaveLeft(s) && LogAgrees(s) && JoinsPrecedeMoves(s.log)
    requires IsAdmitted(s, p, id)
    ensures JoinsPrecedeMoves(Admit(s, p, id).log)
  {
    var leader := s.sessions[id].players[0];
    EntryIsLed(s, id);
    forall i | 0 <= i < |s.log| && s.log[i].Move?
      ensures s.log[i].leader != leader
    {
      assert s.log[i] in s.log;
      assert s.log[i] == Move(s.log[i].leader);
    }
  }

  lemma OthersLogNoJoin(s: State, l: Label)
    requires Enabled(s, l) && !l.JoinSession? && !l.JoinRandom?
    ensures var log := Next(s, l).log;
            || log == s.log
            || (|log| == |s.log| + 1 && s.log <= log && !log[|s.log|].Join?)
  {
  }

  lemma StepKeepsJoinsFirst(s: State, l: Label)
    requires Placed(s) && SeatsFit(s) && GamesHaveLeft(s) && LogAgrees(s) && JoinsPrecedeMoves(s.log)
    requires Enabled(s, l)
    ensures JoinsPrecedeMoves(Next(s, l).log)
  {
    if l.JoinSession? || l.JoinRandom? {
      var admitted, id, next := JoinStep(s, l);
      if admitted {
        AdmitKeepsJoinsFirst(s, l.p, id);
      }
    } else {
      OthersLogNoJoin(s, l);
    }
  }

  // ----- Every reachable state

  /** All of the above. */
  ghost predicate Sane(s: State) {
    && Counted(s)
    && Placed(s)
    && SeatsFit(s)
    && GamesHaveLeft(s)
    && RostersFollowLog(s)
    && LogAgrees(s)
    && JoinsPrecedeMoves(s.log)
  }

  lemma {:induction false} RunsAreSane(run: seq<Label>)
    requires IsRun(run)
    ensures Sane(After(run))
    decreases |run|
  {
    if run != [] {
      var n := |run| - 1;
      LastStep(run);
      RunsAreSane(run[..n]);
      var s := After(run[..n]);
      StepKeepsCounted(s, run[n]);
      StepKeepsPlaced(s, run[n]);
      StepKeepsSeats(s, run[n]);
      StepKeepsGames(s, run[n]);
      StepKeepsRosters(s, run[n]);
      StepKeepsLogAgrees(s, run[n]);
      StepKeepsJoinsFirst(s, run[n]);
    }
  }

  // ----- Owners and their entries

  /** The entry of a handler that owns one: empty after the move, led by its player before it. */
  predicate OwnEntry(s: State, p: Player)
    requires p in s.stage && OwnsEntry(s.stage[p])
  {
    var id := s.stage[p].id;
    && id in s.sessions
    && var players := s.sessions[id].players;
       if s.stage[p].Erasing? then players == [] else players != [] && players[0] == p
  }

  /** No two handlers own the same entry. */
  ghost predicate Unshared(s: State) {
    forall p, q :: p in s.stage && q in s.stage && p != q && OwnsEntry(s.stage[p]) && OwnsEntry(s.stage[q])
                   ==> s.stage[p].id != s.stage[q].id
  }

  ghost predicate Owned(s: State) {
    && (forall p :: p in s.stage && OwnsEntry(s.stage[p]) ==> OwnEntry(s, p))
    && Unshared(s)
    && (forall h :: h in s.games ==> h in s.games[h])
  }

  lemma AdmitKeepsOwned(s: State, p: Player, id: int)
    requires Owned(s) && IsAdmitted(s, p, id)
    ensures Owned(Admit(s, p, id))
  {
    var t := Admit(s, p, id);
    forall q | q in t.stage && OwnsEntry(t.stage[q])
      ensures OwnEntry(t, q)
    {
      assert OwnEntry(s, q);
    }
  }

  lemma CreateKeepsOwned(s: State, p: Player)
    requires Owned(s) && Enabled(s, Create(p)) && SharesNoEntry(s, Create(p))
    ensures Owned(Next(s, Create(p)))
  {
    var t := Next(s, Create(p));
    forall q | q in t.stage && OwnsEntry(t.stage[q]) && q != p
      ensures OwnEntry(t, q) && (t.stage[p].Waiting? ==> t.stage[q].id != NextId(s))
    {
      assert OwnEntry(s, q);
    }
  }

  lemma MoveKeepsOwned(s: State, p: Player)
    requires Owned(s) && Enabled(s, MoveRoster(p))
    ensures Owned(Next(s, MoveRoster(p)))
  {
    var t := Next(s, MoveRoster(p));
    assert OwnEntry(s, p);
    forall q | q in t.stage && OwnsEntry(t.stage[q])
      ensures OwnEntry(t, q)
    {
      assert OwnEntry(s, q);
    }
  }

  lemma EraseKeepsOwned(s: State, p: Player)
    requires Owned(s) && Enabled(s, Erase(p))
    ensures Owned(Next(s, Erase(p)))
  {
    var t := Next(s, Erase(p));
    forall q | q in t.stage && OwnsEntry(t.stage[q])
      ensures OwnEntry(t, q)
    {
      assert OwnEntry(s, q);
    }
  }

  /** A step that leaves every roster alone and lets nobody own another entry than before. */
  lemma OtherKeepsOwned(s: State, t: State, p: Player)
    requires Owned(s) && t.games == s.games && p in t.stage && t.stage == s.stage[p := t.stage[p]]
    requires forall id :: id in s.sessions ==> id in t.sessions && t.sessions[id] == s.sessions[id]
    requires OwnsEntry(t.stage[p]) ==>
               && p in s.stage && OwnsEntry(s.stage[p])
               && t.stage[p].id == s.stage[p].id && (t.stage[p].Erasing? <==> s.stage[p].Erasing?)
    ensures Owned(t)
  {
    forall q | q in t.stage && OwnsEntry(t.stage[q])
      ensures OwnEntry(t, q)
    {
      assert OwnEntry(s, q);
    }
  }

  lemma StepKeepsOwned(s: State, l: Label)
    requires Owned(s) && Enabled(s, l) && SharesNoEntry(s, l)
    ensures Owned(Next(s, l))
  {
    if l.JoinSession? || l.JoinRandom? {
      var admitted, id, next := JoinStep(s, l);
      if admitted {
        AdmitKeepsOwned(s, l.p, id);
      } else {
        OtherKeepsOwned(s, TurnedAway(s, l.p, next), l.p);
      }
    } else if l.Create? {
      CreateKeepsOwned(s, l.p);
    } else if l.MoveRoster? {
      MoveKeepsOwned(s, l.p);
    } else if l.Erase? {
      EraseKeepsOwned(s, l.p);
    } else {
      OtherKeepsOwned(s, Next(s, l), l.p);
    }
  }

  /** Handlers come to share an entry exactly by a session that is created under the identifier of one with players. */
  lemma SharingStartsIff(s: State, l: Label)
    requires Sane(s) && Owned(s) && Enabled(s, l)
    ensures Unshared(Next(s, l)) <==> SharesNoEntry(s, l)
  {
    if SharesNoEntry(s, l) {
      StepKeepsOwned(s, l);
    } else {
      EntryIsLed(s, NextId(s));
      var leader, t := s.sessions[NextId(s)].players[0], Next(s, l);
      assert t.stage[l.p].id == t.stage[leader].id;
    }
  }

  lemma {:induction false} UnsharedRunsAreOwned(run: seq<Label>)
    requires IsUnsharedRun(run)
    ensures Owned(After(run))
    decreases |run|
  {
    if run != [] {
      var n := |run| - 1;
      LastStep(run);
      UnsharedPrefix(run, n);
      UnsharedRunsAreOwned(run[..n]);
      assert SharesNoEntry(After(run[..n]), run[n]);
      StepKeepsOwned(After(run[..n]), run[n]);
    }
  }

  /** No two handlers ever own the same entry exactly in the runs in which no session takes that of another. */
  lemma UnsharedRunsIff(run: seq<Label>)
    requires IsRun(run)
    ensures IsUnsharedRun(run) <==> forall i :: 0 <= i <= |run| ==> Unshared(After(run[..i]))
  {
    if IsUnsharedRun(run) {
      forall i | 0 <= i <= |run|
        ensures Unshared(After(run[..i]))
      {
        UnsharedPrefix(run, i);
        UnsharedRunsAreOwned(run[..i]);
      }
    } else {
      var i := FirstSharing(run);
    }
  }

  /** The first session under an identifier of an entry with players makes two handlers own it. */
  lemma {:induction false} FirstSharing(run: seq<Label>) returns (i: nat)
    requires IsRun(run) && !IsUnsharedRun(run)
    ensures i <= |run| && !Unshared(After(run[..i]))
    decreases |run|
  {
    var n := |run| - 1;
    var shorter := run[..n];
    LastStep(run);
    if !IsUnsharedRun(shorter) {
      i := FirstSharing(shorter);
      assert shorter[..i] == run[..i];
    } else {
      i := |run|;
      if SharesNoEntry(After(shorter), run[n]) {
        UnsharedFurther(run);
      }
      RunsAreSane(shorter);
      UnsharedRunsAreOwned(shorter);
      SharingStartsIff(After(shorter), run[n]);
      assert run[..i] == run;
    }
  }

  lemma UnsharedFurther(run: seq<Label>)
    requires IsRun(run) && run != []
    requires IsUnsharedRun(run[..|run| - 1]) && SharesNoEntry(After(run[..|run| - 1]), run[|run| - 1])
    ensures IsUnsharedRun(run)
  {
    var shorter := run[..|run| - 1];
    forall i | 0 <= i < |run|
      ensures SharesNoEntry(After(run[..i]), run[i])
    {
      if i < |shorter| {
        assert shorter[..i] == run[..i];
        assert SharesNoEntry(After(shorter[..i]), shorter[i]);
      }
    }
  }
}
