/** The lobby's objects: sessions, and the critical sections of the handlers over the shared map of them. */
module Server {
  import opened Lobby

  class Session {
    var players: seq<Player>
    var sessionId: int
    var numPlayers: int

    ghost function View(): Roster
      reads this
    {
      Roster(sessionId, players, numPlayers)
    }

    constructor (leader: Player, id: int)
      ensures View() == Roster(id, [leader], 1)
    {
      sessionId := id;
      players := [leader];
      numPlayers := 1;
    }

    /** What reading an absent key of the map constructs. */
    constructor Default()
      ensures View() == DEFAULT_ROSTER
    {
      sessionId := 0;
      players := [];
      numPlayers := 0;
    }

    /** Takes the players of another session over, one by one. */
    constructor MoveFrom(source: Session)
      ensures View() == source.View()
    {
      sessionId := source.sessionId;
      numPlayers := source.numPlayers;
      players := [];
      new;
      for i := 0 to |source.players|
        invariant players == source.players[..i]
        invariant sessionId == source.sessionId && numPlayers == source.numPlayers
      {
        players := players + [source.players[i]];
      }
    }

    /** Lets a player in, unless the roster is empty, the leader's socket is closed or the session is full. */
    method Join(player: Player, closed: set<Player>) returns (joined: bool)
      modifies this
      ensures joined <==> Accepts(old(View()), closed)
      ensures joined <==> |old(players)| >= 1 && old(players)[0] !in closed && old(numPlayers) < 5
      ensures View() == if joined then WithJoiner(old(View()), player) else old(View())
    {
      if |players| == 0 {
        return false;
      }
      if players[0] in closed {
        return false;
      }
      if numPlayers >= MAX_PLAYERS {
        return false;
      }
      players := players + [player];
      numPlayers := numPlayers + 1;
      return true;
    }

    method GetNumPlayers() returns (n: int)
      ensures n == numPlayers
    {
      n := numPlayers;
    }
  }

  class Server {
    var sessions: map<int, Session>
    var closed: set<Player>

    /** The state of the transition system that these objects stand for. */
    ghost var state: State

    ghost predicate Valid()
      reads this, sessions.Values
    {
      closed == state.closed && Shows(state.sessions)
    }

    /** The map's sessions are distinct objects with these contents. */
    ghost predicate Shows(rosters: map<int, Roster>)
      reads this, sessions.Values
    {
      && sessions.Keys == rosters.Keys
      && (forall id :: id in sessions ==> sessions[id].View() == rosters[id])
      && (forall i, j :: i in sessions && j in sessions && i != j ==> sessions[i] != sessions[j])
    }

    constructor ()
      ensures Valid() && state == INITIAL && fresh(sessions.Values)
    {
      sessions := map[];
      closed := {};
      state := INITIAL;
    }

    /** A step that does not touch the map: a handler goes on by itself, or a socket is closed. */
    method Advance(l: Label)
      requires Valid() && Enabled(state, l)
      requires l.Connect? || l.CloseSocket? || l.LoseLeader? || l.AnnounceStart? || l.AckJoin? || l.AckRefusal?
      modifies this
      ensures Valid() && sessions == old(sessions) && state == Next(old(state), l)
    {
      if l.CloseSocket? {
        closed := closed + {l.p};
      }
      state := Next(state, l);
    }

    /**
     * The critical section that puts a new session into the map, unless its identifier is taken. The leader is read
     * from whatever session is under the identifier then; without players there is none to read.
     */
    method CreateSession(p: Player) returns (sessionId: int, led: bool)
      requires Valid() && Enabled(state, Create(p))
      modifies this
      ensures Valid() && state == Next(old(state), Create(p)) && sessionId == NextId(old(state))
      ensures led <==> state.stage[p] == Waiting(sessionId)
      ensures fresh(sessions.Values - old(sessions.Values))
    {
      assert |sessions.Keys| == |state.sessions.Keys|;
      sessionId := |sessions|;
      var temporary := new Session(p, sessionId);
      if sessionId !in sessions {
        var session := new Session.MoveFrom(temporary);
        ghost var before := sessions;
        sessions := sessions[sessionId := session];
        assert sessions.Values - before.Values <= {session};
      }
      led := |sessions[sessionId].players| > 0;
      state := Next(state, Create(p));
    }

    /** A leader's request to start: refused while the leader is alone. */
    method StartRequest(p: Player, id: int) returns (granted: bool)
      requires Valid() && Enabled(state, StartMessage(p)) && id == state.stage[p].id
      modifies this
      ensures Valid() && sessions == old(sessions) && state == Next(old(state), StartMessage(p))
      ensures granted <==> state.stage[p].Starting?
    {
      var n := sessions[id].GetNumPlayers();
      granted := n != 1;
      state := Next(state, StartMessage(p));
    }

    /** The move of a roster into a game, which leaves the entry without players and its count as it was. */
    method MoveRosterOut(p: Player, id: int) returns (roster: seq<Player>)
      requires Valid() && Enabled(state, MoveRoster(p)) && id == state.stage[p].id
      modifies this, sessions[id]
      ensures Valid() && sessions == old(sessions) && state == Next(old(state), MoveRoster(p))
      ensures state.games[p] == roster
    {
      var session := sessions[id];
      roster := session.players;
      session.players := [];
      state := Next(state, MoveRoster(p));
    }

    /** The critical section that takes an entry out of the map. */
    method EraseSession(p: Player, id: int)
      requires Valid() && Enabled(state, Erase(p)) && id == state.stage[p].id
      modifies this
      ensures Valid() && state == Next(old(state), Erase(p))
      ensures sessions == old(sessions) - {id}
    {
      sessions := sessions - {id};
      state := Next(state, Erase(p));
    }

    /** Asks the session under a key, and says what the map looks like then. */
    method AskToJoin(p: Player, id: int) returns (joined: bool)
      requires Valid() && id in sessions
      modifies sessions[id]
      ensures joined <==> Accepts(state.sessions[id], closed)
      ensures Shows(if joined then state.sessions[id := WithJoiner(state.sessions[id], p)] else state.sessions)
    {
      assert sessions[id].View() == state.sessions[id];
      assert forall k :: k in sessions && k != id ==> sessions[k] != sessions[id];
      joined := sessions[id].Join(p, closed);
    }

    /** The critical section of joining a given session. */
    method TryJoin(p: Player, id: int) returns (joined: bool)
      requires Valid() && Enabled(state, JoinSession(p, id))
      modifies this, sessions.Values
      ensures Valid() && sessions == old(sessions) && state == Next(old(state), JoinSession(p, id))
      ensures joined <==> state.stage[p].Admitted?
    {
      ghost var l := JoinSession(p, id);
      if id !in sessions {
        state := Next(state, l);
        return false;
      }
      var n := sessions[id].GetNumPlayers();
      if n >= MAX_PLAYERS {
        state := Next(state, l);
        return false;
      }
      joined := AskToJoin(p, id);
      state := Next(state, l);
    }

    /** The critical section of joining any session: a scan that stops at the first to let the player in. */
    method TryJoinAny(p: Player, order: seq<int>) returns (found: Found)
      requires Valid() && Enabled(state, JoinRandom(p, order))
      modifies this, sessions.Values
      ensures Valid() && sessions == old(sessions) && state == Next(old(state), JoinRandom(p, order))
      ensures found == FirstAccepting(old(state).sessions, order, old(closed))
    {
      ghost var l := JoinRandom(p, order);
      FirstAcceptingIsFirst(state.sessions, order, closed);
      for i := 0 to |order|
        invariant sessions == old(sessions) && state == old(state) && closed == old(closed) && Shows(state.sessions)
        invariant FirstAccepting(state.sessions, order, closed) == FirstAccepting(state.sessions, order[i..], closed)
      {
        ScanStep(state.sessions, order, closed, i);
        var joined := AskToJoin(p, order[i]);
        if joined {
          found := At(order[i]);
          assert Next(state, l) == Admit(state, p, order[i]);
          state := Next(state, l);
          return;
        }
      }
      found := Nowhere;
      state := Next(state, l);
    }

    /** The critical section after a join, whose access by key puts a default session where none is left. */
    method Announce(p: Player, id: int)
      requires Valid() && Enabled(state, AnnounceJoin(p)) && id == state.stage[p].id
      modifies this
      ensures Valid() && state == Next(old(state), AnnounceJoin(p))
    {
      if id !in sessions {
        var session := new Session.Default();
        sessions := sessions[id := session];
      }
      state := Next(state, AnnounceJoin(p));
    }
  }
}
