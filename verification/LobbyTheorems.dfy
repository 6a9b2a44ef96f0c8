/** What players of the lobby can rely on, under any interleaving. */
module LobbyTheorems {
  import opened Lobby
  import opened LobbySafety

  // ----- Players and rosters, whatever identifiers are used

  /** Every connected player is held in exactly one place. */
  lemma EveryPlayerIsInOnePlace(run: seq<Label>, p: Player)
    requires IsRun(run) && p in After(run).stage
    ensures exists place ::
              Holds(After(run), p, place) && forall other :: Holds(After(run), p, other) ==> other == place
  {
    RunsAreSane(run);
    var s := After(run);
    assert Holds(s, p, s.place[p]);
  }

  /** So no roster, of a session or of a game, names a player twice, and no two of them share one. */
  lemma NobodyIsInTwoRosters(run: seq<Label>, g: Player, h: Player, i: nat, k: nat)
    requires IsRun(run) && g in After(run).games && h in After(run).games
    requires i < |After(run).games[g]| && k < |After(run).games[h]|
    ensures After(run).games[g][i] == After(run).games[h][k] ==> g == h && i == k
    ensures forall id, j :: id in After(run).sessions && 0 <= j < |After(run).sessions[id].players|
                            ==> After(run).sessions[id].players[j] != After(run).games[g][i]
  {
    RunsAreSane(run);
    var s := After(run);
    assert Holds(s, s.games[g][i], InGame(g, i)) && Holds(s, s.games[h][k], InGame(h, k));
    forall id, j | id in s.sessions && 0 <= j < |s.sessions[id].players|
      ensures s.sessions[id].players[j] != s.games[g][i]
    {
      assert Holds(s, s.sessions[id].players[j], InSession(id, j));
    }
  }

  /**
   * Every entry that was not moved out or made by a read counts its players right, has one to five of them, and is
   * led by the handler of the first.
   */
  lemma {:induction false} EntriesAreCounted(run: seq<Label>, id: int)
    requires IsRun(run) && id in After(run).sessions && After(run).sessions[id].players != []
    ensures var r := After(run).sessions[id]; 1 <= |r.players| == r.numPlayers <= MAX_PLAYERS
    ensures var s := After(run); var h := s.sessions[id].players[0];
            h in s.stage && Leads(s.stage[h]) && s.stage[h].id == id
  {
    RunsAreSane(run);
    EntryIsLed(After(run), id);
  }

  lemma LogOnlyGrows(s: State, l: Label)
    requires Enabled(s, l)
    ensures s.log <= Next(s, l).log
  {
    if l.JoinRandom? {
      var admitted, id, next := JoinStep(s, l);
    }
  }

  lemma {:induction false} LogOnlyGrowsInRuns(run: seq<Label>, i: nat)
    requires IsRun(run) && i <= |run|
    ensures After(run[..i]).log <= After(run).log
    decreases |run|
  {
    if i == |run| {
      assert run[..i] == run;
    } else {
      var n := |run| - 1;
      LastStep(run);
      LogOnlyGrowsInRuns(run[..n], i);
      assert run[..n][..i] == run[..i];
      LogOnlyGrows(After(run[..n]), run[n]);
    }
  }

  lemma {:induction false} JoinersOnlyGrow(log: seq<Event>, longer: seq<Event>, leader: Player)
    requires log <= longer
    ensures JoinersOf(log, leader) <= JoinersOf(longer, leader)
    decreases |longer|
  {
    if log != longer {
      JoinersOnlyGrow(log, longer[..|longer| - 1], leader);
    }
  }

  /** A roster with the same first player at a later time is at least as long. */
  lemma RosterGrows(roster: seq<Player>, later: seq<Player>, log: seq<Event>, longer: seq<Event>)
    requires FollowsLog(roster, log) && FollowsLog(later, longer) && log <= longer
    requires roster != [] && later != [] && roster[0] == later[0]
    ensures roster <= later
  {
    JoinersOnlyGrow(log, longer, roster[0]);
  }

  /**
   * The roster that a player leads only grows, as long as it is in a session and into the game it is moved to. So
   * the check for two players, made when the leader asks to start, still holds for the roster that is moved.
   */
  lemma {:induction false} RosterOnlyGrowsUntilTheMove(run: seq<Label>, i: nat, id: int)
    requires IsRun(run) && i <= |run|
    requires id in After(run[..i]).sessions && After(run[..i]).sessions[id].players != []
    ensures var roster, t := After(run[..i]).sessions[id].players, After(run);
            && (forall k :: k in t.sessions && t.sessions[k].players != [] && t.sessions[k].players[0] == roster[0]
                            ==> roster <= t.sessions[k].players)
            && (forall g :: g in t.games && t.games[g] != [] && t.games[g][0] == roster[0] ==> roster <= t.games[g])
  {
    RunPrefix(run, i);
    RunsAreSane(run[..i]);
    RunsAreSane(run);
    LogOnlyGrowsInRuns(run, i);
    var s, t := After(run[..i]), After(run);
    var roster := s.sessions[id].players;
    forall k | k in t.sessions && t.sessions[k].players != [] && t.sessions[k].players[0] == roster[0]
      ensures roster <= t.sessions[k].players
    {
      RosterGrows(roster, t.sessions[k].players, s.log, t.log);
    }
    forall g | g in t.games && t.games[g] != [] && t.games[g][0] == roster[0]
      ensures roster <= t.games[g]
    {
      RosterGrows(roster, t.games[g], s.log, t.log);
    }
  }

  // ----- Games

  /**
   * A game has at most five players. It is built for its leader and then those who joined, in the order in which
   * they did, at least two altogether, if and only if the leader is in it.
   */
  lemma GameIsWellStaffedIff(run: seq<Label>, h: Player)
    requires IsRun(run) && h in After(run).games
    ensures var game := After(run).games[h];
            && |game| <= MAX_PLAYERS
            && (h in game <==> |game| >= 2 && game == [h] + JoinersOf(After(run).log, h))
  {
    RunsAreSane(run);
    var s := After(run);
    assert IsSized(s.games[h], h) && FollowsLog(s.games[h], s.log);
  }

  /** As long as no two handlers own the same entry, every game is. */
  lemma GamesAreWellStaffed(run: seq<Label>, h: Player)
    requires IsUnsharedRun(run) && h in After(run).games
    ensures 2 <= |After(run).games[h]| <= MAX_PLAYERS
    ensures After(run).games[h] == [h] + JoinersOf(After(run).log, h)
  {
    GameIsWellStaffedIff(run, h);
    UnsharedRunsAreOwned(run);
  }

  /** Of two handlers that are about to move the same roster, the second builds a game without players. */
  lemma SecondMoveIsEmpty(s: State, p: Player, q: Player)
    requires p != q && Enabled(s, MoveRoster(p)) && Enabled(s, MoveRoster(q)) && s.stage[p].id == s.stage[q].id
    ensures Enabled(Next(s, MoveRoster(p)), MoveRoster(q))
    ensures Next(Next(s, MoveRoster(p)), MoveRoster(q)).games[q] == []
  {
  }

  // ----- Joining against starting

  /** A request to join is granted exactly while the leader, its socket open, is in the session, and there is room. */
  lemma {:induction false} JoinIsGrantedIff(run: seq<Label>, p: Player, id: int)
    requires IsRun(run) && Enabled(After(run), JoinSession(p, id))
    ensures var s := After(run);
            Next(s, JoinSession(p, id)).stage[p].Admitted?
            <==> exists h :: h in s.stage && Leads(s.stage[h]) && s.stage[h].id == id && h !in s.closed
                             && id in s.sessions && h in s.sessions[id].players
                             && |s.sessions[id].players| < MAX_PLAYERS
  {
    RunsAreSane(run);
    var s := After(run);
    if id in s.sessions && s.sessions[id].players != [] {
      EntryIsLed(s, id);
      forall h | h in s.sessions[id].players && h in s.stage && Leads(s.stage[h])
        ensures h == s.sessions[id].players[0]
      {
        var k :| 0 <= k < |s.sessions[id].players| && s.sessions[id].players[k] == h;
        assert Holds(s, h, InSession(id, k));
        assert SeatFits(s, h);
      }
    }
  }

  /**
   * Joining linearises against the start of a game. A joiner is sent a success exactly if it has joined, and then
   * it joined before its leader moved a roster, and is in every session and game that this leader is the first of; a
   * joiner that is sent a failure is in no roster.
   */
  lemma JoinLinearisesAgainstStart(run: seq<Label>, j: Player)
    requires IsRun(run) && j in After(run).stage
    ensures var s := After(run);
            && (AckSuccess(j) in s.log <==> !s.stage[j].Admitted? && exists h :: Join(j, h) in s.log)
            && (forall i, h :: 0 <= i < |s.log| && s.log[i] == Join(j, h) ==>
                  && (forall k :: 0 <= k < i ==> s.log[k] != Move(h))
                  && StaysWith(s, j, h))
            && (AckFailure(j) in s.log ==> j in s.dropped && forall h :: Join(j, h) !in s.log)
  {
    RunsAreSane(run);
    var s := After(run);
    forall i, h | 0 <= i < |s.log| && s.log[i] == Join(j, h)
      ensures (forall k :: 0 <= k < i ==> s.log[k] != Move(h)) && StaysWith(s, j, h)
    {
      JoinerIsListed(s.log, i);
      JoinersStay(s, j, h);
    }
    if AckFailure(j) in s.log {
      RefusedIsDropped(run, j);
    }
  }

  /** Wherever h is the first player, j is a player as well. */
  ghost predicate StaysWith(s: State, j: Player, h: Player) {
    && (forall id :: id in s.sessions && s.sessions[id].players != [] && s.sessions[id].players[0] == h
                     ==> j in s.sessions[id].players)
    && (forall g :: g in s.games && s.games[g] != [] && s.games[g][0] == h ==> j in s.games[g])
  }

  lemma JoinersStay(s: State, j: Player, h: Player)
    requires RostersFollowLog(s) && j in JoinersOf(s.log, h)
    ensures StaysWith(s, j, h)
  {
    assert forall id :: id in s.sessions ==> FollowsLog(s.sessions[id].players, s.log);
    assert forall g :: g in s.games ==> FollowsLog(s.games[g], s.log);
  }

  lemma {:induction false} JoinerIsListed(log: seq<Event>, i: nat)
    requires i < |log| && log[i].Join?
    ensures log[i].joiner in JoinersOf(log, log[i].leader)
    decreases |log|
  {
    if i < |log| - 1 {
      JoinerIsListed(log[..|log| - 1], i);
    }
  }

  lemma {:induction false} RefusedIsDropped(run: seq<Label>, j: Player)
    requires IsRun(run) && AckFailure(j) in After(run).log
    ensures j in After(run).dropped
    decreases |run|
  {
    if run != [] {
      var n := |run| - 1;
      LastStep(run);
      var s := After(run[..n]);
      if run[n].JoinRandom? {
        var admitted, id, next := JoinStep(s, run[n]);
      }
      if AckFailure(j) in s.log {
        RefusedIsDropped(run[..n], j);
      }
    }
  }

  // ----- Joining any session

  /** The joiner went into the entry at position k of the scan, the first to accept, and no other entry changed. */
  ghost predicate WentToFirst(s: State, t: State, p: Player, order: seq<int>, k: nat)
    requires IsScanOrder(s.sessions, order)
  {
    && AcceptsFirst(s.sessions, order, s.closed, k)
    && t.stage[p := Admitted(order[k])] == t.stage
    && t.sessions == s.sessions[order[k] := WithJoiner(s.sessions[order[k]], p)]
  }

  /** The entry has no roster, its leader's socket is closed, or it has five players. */
  predicate TurnsAway(r: Roster, closed: set<Player>) {
    r.players == [] || r.players[0] in closed || |r.players| == 5
  }

  /**
   * A joiner without a preference is put into at most one session, the first in scan order that accepts, and all
   * other entries stay as they were; it goes on to create one exactly if every entry turned it away.
   */
  lemma JoinRandomTakesTheFirst(run: seq<Label>, p: Player, order: seq<int>)
    requires IsRun(run) && Enabled(After(run), JoinRandom(p, order))
    ensures var s, t := After(run), Next(After(run), JoinRandom(p, order));
            && (t.stage[p].Admitted? ==> exists k: nat :: WentToFirst(s, t, p, order, k))
            && (!t.stage[p].Admitted? ==> t.stage[p] == NoneFound && t.sessions == s.sessions)
            && (!t.stage[p].Admitted? <==> forall id :: id in s.sessions ==> TurnsAway(s.sessions[id], s.closed))
  {
    RunsAreSane(run);
    var s := After(run);
    var t := Next(s, JoinRandom(p, order));
    FirstAcceptingIsFirst(s.sessions, order, s.closed);
    var found := FirstAccepting(s.sessions, order, s.closed);
    assert forall id :: id in s.sessions ==>
      (TurnsAway(s.sessions[id], s.closed) <==> !Accepts(s.sessions[id], s.closed));
    if found.At? {
      var k: nat :| AcceptsFirst(s.sessions, order, s.closed, k) && order[k] == found.id;
      assert WentToFirst(s, t, p, order, k);
    } else {
      forall id | id in s.sessions
        ensures !Accepts(s.sessions[id], s.closed)
      {
        assert id in order;
      }
    }
  }

  // ----- Entries without a roster

  lemma EmptyEntryStaysEmpty(s: State, l: Label, id: int)
    requires Enabled(s, l) && id in s.sessions && s.sessions[id].players == [] && id in Next(s, l).sessions
    ensures Next(s, l).sessions[id].players == []
  {
    if l.JoinRandom? {
      FirstAcceptingIsFirst(s.sessions, l.order, s.closed);
    }
  }

  /**
   * A map entry whose roster is empty, moved out or made by reading an erased key, never gains a player for as
   * long as it exists.
   */
  lemma {:induction false} EmptyEntryNeverGainsAPlayer(run: seq<Label>, i: nat, id: int)
    requires IsRun(run) && i <= |run|
    requires forall k :: i <= k <= |run| ==> id in After(run[..k]).sessions
    requires After(run[..i]).sessions[id].players == []
    ensures id in After(run).sessions && After(run).sessions[id].players == []
    decreases |run|
  {
    assert run[..|run|] == run;
    if i < |run| {
      var n := |run| - 1;
      var shorter := run[..n];
      LastStep(run);
      forall k | i <= k <= n
        ensures id in After(shorter[..k]).sessions
      {
        assert shorter[..k] == run[..k];
      }
      assert shorter[..i] == run[..i];
      EmptyEntryNeverGainsAPlayer(shorter, i, id);
      EmptyEntryStaysEmpty(After(shorter), run[n], id);
    }
  }

  /** The handler of p has joined a session under this identifier and has not announced it yet. */
  predicate IsAnnouncing(s: State, p: Player, id: int) {
    p in s.stage && (s.stage[p].Admitted? || s.stage[p].Announcing?) && s.stage[p].id == id
  }

  /** Step i erased the entry while p was going to announce itself in it, and the identifier was not used since. */
  ghost predicate WasErasedFor(run: seq<Label>, i: nat, p: Player, id: int)
    requires i < |run|
  {
    && run[i].Erase?
    && id in After(run[..i]).sessions
    && IsAnnouncing(After(run[..i]), p, id)
    && forall k :: i < k <= |run| ==> id !in After(run[..k]).sessions
  }

  /** The announcement of a join adds an entry to the map if and only if the session was erased since the join. */
  lemma {:induction false} LateAnnouncementIff(run: seq<Label>, p: Player)
    requires IsRun(run) && Enabled(After(run), AnnounceJoin(p))
    ensures var s, id := After(run), After(run).stage[p].id; var t := Next(s, AnnounceJoin(p));
            && (t.sessions != s.sessions <==> exists i: nat :: i < |run| && WasErasedFor(run, i, p, id))
            && (t.sessions != s.sessions ==> t.sessions == s.sessions[id := Roster(0, [], 0)])
  {
    var s, id := After(run), After(run).stage[p].id;
    assert run[..|run|] == run;
    if id !in s.sessions {
      ErasedSinceTheJoin(run, p, id);
      assert id in Next(s, AnnounceJoin(p)).sessions;
    }
  }

  lemma {:induction false} ErasedSinceTheJoin(run: seq<Label>, p: Player, id: int)
    requires IsRun(run) && IsAnnouncing(After(run), p, id) && id !in After(run).sessions
    ensures exists i: nat :: i < |run| && WasErasedFor(run, i, p, id)
    decreases |run|
  {
    var n := |run| - 1;
    var shorter := run[..n];
    LastStep(run);
    assert run[..|run|] == run;
    WasAnnouncing(After(shorter), run[n], p, id);
    if id in After(shorter).sessions {
      OnlyEraseRemoves(After(shorter), run[n], id);
      assert WasErasedFor(run, n, p, id);
    } else {
      ErasedSinceTheJoin(shorter, p, id);
      var i: nat :| i < n && WasErasedFor(shorter, i, p, id);
      assert shorter[..i] == run[..i];
      forall k | i < k <= |run|
        ensures id !in After(run[..k]).sessions
      {
        if k <= n {
          assert shorter[..k] == run[..k];
        }
      }
      assert WasErasedFor(run, i, p, id);
    }
  }

  /** Steps of others leave a handler where it is. */
  lemma OthersStay(s: State, l: Label, p: Player)
    requires Enabled(s, l) && l.p != p && p in Next(s, l).stage
    ensures p in s.stage && Next(s, l).stage[p] == s.stage[p]
  {
    if l.JoinSession? || l.JoinRandom? {
      var admitted, at, next := JoinStep(s, l);
    }
  }

  /** Behind a join its session is there, so a handler that announces itself without it had joined before. */
  lemma WasAnnouncing(s: State, l: Label, p: Player, id: int)
    requires Enabled(s, l) && IsAnnouncing(Next(s, l), p, id) && id !in Next(s, l).sessions
    ensures IsAnnouncing(s, p, id)
  {
    if l.p != p {
      OthersStay(s, l, p);
    } else if l.JoinSession? || l.JoinRandom? {
      var admitted, at, next := JoinStep(s, l);
    }
  }

  lemma OnlyEraseRemoves(s: State, l: Label, id: int)
    requires Enabled(s, l) && id in s.sessions && id !in Next(s, l).sessions
    ensures l.Erase?
  {
    if l.JoinSession? || l.JoinRandom? {
      var admitted, at, next := JoinStep(s, l);
    }
  }

  // ----- The size of the map as an identifier

  function Below(n: nat): (s: set<int>)
    ensures |s| == n
    ensures forall i :: i in s <==> 0 <= i < n
  {
    if n == 0 then {} else Below(n - 1) + {n - 1}
  }

  /** The naturals below the size of the map that are no keys, and the keys that are neither below nor at it. */
  function Gaps<T>(m: map<int, T>): set<int> {
    Below(|m|) - m.Keys
  }

  function Beyond<T>(m: map<int, T>): set<int> {
    m.Keys - Below(|m| + 1)
  }

  /** The size of a map is a key of it if and only if there is one gap more than there are keys beyond it. */
  lemma SizeIsTakenIff<T>(m: map<int, T>)
    ensures |m| in m <==> |Gaps(m)| == |Beyond(m)| + 1
    ensures |m| !in m <==> |Gaps(m)| == |Beyond(m)|
  {
    var n, keys := |m|, m.Keys;
    SplitSize(Below(n), keys);
    SplitSize(keys, Below(n + 1));
    assert |keys| == n;
    assert keys * Below(n + 1) == if n in m then Below(n) * keys + {n} else Below(n) * keys;
  }

  lemma SplitSize(a: set<int>, b: set<int>)
    ensures |a| == |a * b| + |a - b|
  {
    assert a == a * b + (a - b);
  }

  ghost predicate GapsAreFilled(run: seq<Label>, i: nat)
    requires i < |run|
  {
    run[i].Create? ==> |Gaps(After(run[..i]).sessions)| == |Beyond(After(run[..i]).sessions)|
  }

  /** A run creates every session under a fresh identifier exactly if it has as many gaps as keys beyond each time. */
  lemma FreshRunsIff(run: seq<Label>)
    requires IsRun(run)
    ensures IsFreshRun(run) <==> forall i :: 0 <= i < |run| ==> GapsAreFilled(run, i)
  {
    forall i | 0 <= i < |run|
      ensures IsFresh(After(run[..i]), run[i]) <==> GapsAreFilled(run, i)
    {
      SizeIsTakenIff(After(run[..i]).sessions);
    }
    if forall i :: 0 <= i < |run| ==> GapsAreFilled(run, i) {
      forall i | 0 <= i < |run|
        ensures IsFresh(After(run[..i]), run[i])
      {
        assert GapsAreFilled(run, i);
      }
    }
  }

  /** A player that is still with its handler is in no session and not dropped. */
  lemma WithHandlerOnly(s: State, p: Player)
    requires Placed(s) && Holds(s, p, WithHandler)
    ensures p !in s.dropped && forall id :: id in s.sessions ==> p !in s.sessions[id].players
  {
    assert !Holds(s, p, Dropped);
    forall id, k | id in s.sessions && 0 <= k < |s.sessions[id].players|
      ensures s.sessions[id].players[k] != p
    {
      assert Holds(s, s.sessions[id].players[k], InSession(id, k));
    }
  }

  /** A leader gets an entry, its own, if and only if the identifier is fresh; otherwise it is dropped. */
  lemma {:induction false} CreateInsertsIff(run: seq<Label>, p: Player)
    requires IsRun(run) && Enabled(After(run), Create(p))
    ensures var s, t := After(run), Next(After(run), Create(p));
            && (NextId(s) !in s.sessions <==> exists id :: id in t.sessions && p in t.sessions[id].players)
            && (NextId(s) !in s.sessions ==> t.sessions == s.sessions[NextId(s) := Roster(NextId(s), [p], 1)])
            && (NextId(s) in s.sessions ==> t.sessions == s.sessions && p in t.dropped && p !in s.dropped)
  {
    RunsAreSane(run);
    var s, t := After(run), Next(After(run), Create(p));
    if NextId(s) in s.sessions {
      WithHandlerOnly(s, p);
    } else {
      assert t.sessions[NextId(s)].players == [p];
    }
  }

  /** The keys are 0 up to the size of the map. */
  ghost predicate Contiguous<T>(m: map<int, T>) {
    forall i :: i in m <==> 0 <= i < |m|
  }

  /** What keeps the keys contiguous: an erase takes the last key, and a read that inserts inserts the next one. */
  ghost predicate Tidy(s: State, l: Label)
    requires Enabled(s, l)
  {
    && (l.Erase? && s.stage[l.p].id in s.sessions ==> s.stage[l.p].id == |s.sessions| - 1)
    && (l.AnnounceJoin? && s.stage[l.p].id !in s.sessions ==> s.stage[l.p].id == |s.sessions|)
  }

  lemma InsertKeepsContiguousIff<T>(m: map<int, T>, id: int, v: T)
    requires Contiguous(m) && id !in m
    ensures Contiguous(m[id := v]) <==> id == |m|
  {
    assert |m[id := v]| == |m| + 1;
    if id != |m| {
      assert |m| !in m[id := v];
    }
  }

  lemma RemoveKeepsContiguousIff<T>(m: map<int, T>, id: int)
    requires Contiguous(m) && id in m
    ensures Contiguous(m - {id}) <==> id == |m| - 1
  {
    assert (m - {id}).Keys == m.Keys - {id};
    assert |m - {id}| == |m| - 1;
    if id != |m| - 1 {
      assert |m| - 1 in m - {id};
    }
  }

  lemma SameKeysContiguous<T>(m: map<int, T>, n: map<int, T>)
    requires forall i :: i in m <==> i in n
    ensures Contiguous(m) <==> Contiguous(n)
  {
    assert m.Keys == n.Keys by {
      assert forall i :: i in m.Keys <==> i in n.Keys;
    }
    assert |m| == |m.Keys| && |n| == |n.Keys|;
  }

  /** The steps that neither insert nor erase. */
  lemma OtherStepsKeepKeys(s: State, l: Label)
    requires Enabled(s, l) && !l.Create? && !l.Erase? && !l.AnnounceJoin?
    ensures forall id :: id in Next(s, l).sessions <==> id in s.sessions
  {
    if l.JoinRandom? {
      FirstAcceptingIsFirst(s.sessions, l.order, s.closed);
    }
  }

  lemma EraseContiguousIff(s: State, p: Player)
    requires Enabled(s, Erase(p)) && Contiguous(s.sessions)
    ensures Contiguous(Next(s, Erase(p)).sessions) <==> Tidy(s, Erase(p))
  {
    var id := s.stage[p].id;
    var t := Next(s, Erase(p)).sessions;
    assert t == s.sessions - {id};
    if id in s.sessions {
      RemoveKeepsContiguousIff(s.sessions, id);
    } else {
      assert t == s.sessions;
    }
  }

  lemma AnnounceContiguousIff(s: State, p: Player)
    requires Enabled(s, AnnounceJoin(p)) && Contiguous(s.sessions)
    ensures Contiguous(Next(s, AnnounceJoin(p)).sessions) <==> Tidy(s, AnnounceJoin(p))
  {
    var id := s.stage[p].id;
    if id !in s.sessions {
      InsertKeepsContiguousIff(s.sessions, id, DEFAULT_ROSTER);
    }
  }

  /** On contiguous keys an identifier is fresh, and the keys stay contiguous exactly if the step is tidy. */
  lemma ContiguousStep(s: State, l: Label)
    requires Enabled(s, l) && Contiguous(s.sessions)
    ensures IsFresh(s, l)
    ensures Contiguous(Next(s, l).sessions) <==> Tidy(s, l)
  {
    var n := |s.sessions|;
    if l.Create? {
      InsertKeepsContiguousIff(s.sessions, n, Roster(n, [l.p], 1));
    } else if l.Erase? {
      EraseContiguousIff(s, l.p);
    } else if l.AnnounceJoin? {
      AnnounceContiguousIff(s, l.p);
    } else {
      OtherStepsKeepKeys(s, l);
      SameKeysContiguous(Next(s, l).sessions, s.sessions);
    }
  }

  ghost predicate IsTidyStep(run: seq<Label>, i: nat)
    requires i < |run|
  {
    IsStep(run, i) && Tidy(After(run[..i]), run[i])
  }

  ghost predicate IsTidyRun(run: seq<Label>) {
    forall i :: 0 <= i < |run| ==> IsTidyStep(run, i)
  }

  lemma LastTidyStep(run: seq<Label>)
    requires IsTidyRun(run) && run != []
    ensures IsRun(run) && IsTidyRun(run[..|run| - 1])
    ensures IsTidyStep(run, |run| - 1)
  {
    var shorter := run[..|run| - 1];
    forall i | 0 <= i < |run|
      ensures IsStep(run, i)
    {
      assert IsTidyStep(run, i);
    }
    forall i | 0 <= i < |shorter|
      ensures IsTidyStep(shorter, i)
    {
      assert IsTidyStep(run, i);
      assert shorter[..i] == run[..i];
    }
  }

  lemma FreshFurther(run: seq<Label>)
    requires IsRun(run) && run != []
    requires IsFreshRun(run[..|run| - 1]) && IsFresh(After(run[..|run| - 1]), run[|run| - 1])
    ensures IsFreshRun(run)
  {
    var shorter := run[..|run| - 1];
    forall i | 0 <= i < |run|
      ensures IsFresh(After(run[..i]), run[i])
    {
      if i < |shorter| {
        assert IsFresh(After(shorter[..i]), shorter[i]);
        assert shorter[..i] == run[..i];
      }
    }
  }

  /** So a run of tidy steps keeps the identifiers contiguous and creates every session under a fresh one. */
  lemma {:induction false} TidyRunsAreFresh(run: seq<Label>)
    requires IsTidyRun(run)
    ensures IsFreshRun(run) && Contiguous(After(run).sessions)
    decreases |run|
  {
    if run != [] {
      var n := |run| - 1;
      LastTidyStep(run);
      LastStep(run);
      TidyRunsAreFresh(run[..n]);
      ContiguousStep(After(run[..n]), run[n]);
      FreshFurther(run);
    }
  }

  /** And then every game has its two to five players. */
  lemma TidyRunsStaffGames(run: seq<Label>, h: Player)
    requires IsTidyRun(run) && h in After(run).games
    ensures 2 <= |After(run).games[h]| <= MAX_PLAYERS
  {
    TidyRunsAreFresh(run);
    FreshRunsAreUnshared(run);
    GamesAreWellStaffed(run, h);
  }

  /**
   * As long as no two handlers own the same entry, what a leader erases in the end is the entry that it created:
   * empty after its game was built, and still led by it otherwise.
   */
  lemma {:induction false} LeadersEraseTheirOwn(run: seq<Label>, p: Player)
    requires IsUnsharedRun(run) && Enabled(After(run), Erase(p))
    ensures var s := After(run); var id := s.stage[p].id;
            && id in s.sessions
            && Next(s, Erase(p)).sessions == s.sessions - {id}
            && var roster := s.sessions[id].players;
               if p in s.games then roster == [] else roster != [] && roster[0] == p
  {
    RunsAreSane(run);
    UnsharedRunsAreOwned(run);
    assert OwnEntry(After(run), p);
  }

  // ----- Runs that go wrong

  /** A player connects and creates a session under a fresh identifier. */
  lemma BecomesLeader(run: seq<Label>, p: Player) returns (longer: seq<Label>)
    requires IsRun(run) && p !in After(run).stage && NextId(After(run)) !in After(run).sessions
    ensures IsRun(longer)
    ensures var s, t := After(run), After(longer); var id := NextId(s);
            && t.sessions == s.sessions[id := Roster(id, [p], 1)]
            && t.stage == s.stage[p := Waiting(id)]
            && t.closed == s.closed
  {
    longer := run;
    AfterStep(longer, Connect(p));
    longer := longer + [Connect(p)];
    AfterStep(longer, Create(p));
    longer := longer + [Create(p)];
  }

  /** A leader is lost and erases its entry. */
  lemma LosesLeader(run: seq<Label>, p: Player) returns (longer: seq<Label>)
    requires IsRun(run) && p in After(run).stage && After(run).stage[p].Waiting?
    ensures IsRun(longer)
    ensures var s, t := After(run), After(longer);
            && t.sessions == s.sessions - {s.stage[p].id}
            && t.stage == s.stage[p := Gone]
            && t.closed == s.closed
  {
    longer := run;
    AfterStep(longer, LoseLeader(p));
    longer := longer + [LoseLeader(p)];
    AfterStep(longer, Erase(p));
    longer := longer + [Erase(p)];
  }

  /** A player connects and joins a session that accepts it. */
  lemma Joins(run: seq<Label>, p: Player, id: int) returns (longer: seq<Label>)
    requires IsRun(run) && p !in After(run).stage
    requires id in After(run).sessions && Accepts(After(run).sessions[id], After(run).closed)
    ensures IsRun(longer)
    ensures var s, t := After(run), After(longer);
            && t.sessions == s.sessions[id := WithJoiner(s.sessions[id], p)]
            && t.stage == s.stage[p := Admitted(id)]
            && t.closed == s.closed
  {
    longer := run;
    AfterStep(longer, Connect(p));
    longer := longer + [Connect(p)];
    AfterStep(longer, JoinSession(p, id));
    longer := longer + [JoinSession(p, id)];
  }

  /** A handler whose session has somebody else in it is allowed to start. */
  lemma Starts(run: seq<Label>, p: Player) returns (longer: seq<Label>)
    requires IsRun(run)
    requires var s := After(run);
             && p in s.stage && s.stage[p].Waiting?
             && s.stage[p].id in s.sessions && s.sessions[s.stage[p].id].numPlayers != 1
    ensures IsRun(longer)
    ensures After(longer) == After(run).(stage := After(run).stage[p := Moving(After(run).stage[p].id)])
  {
    longer := run;
    AfterStep(longer, StartMessage(p));
    longer := longer + [StartMessage(p)];
    AfterStep(longer, AnnounceStart(p));
    longer := longer + [AnnounceStart(p)];
  }

  /** The older of two sessions is erased, so that the identifier of the third is that of the second. */
  lemma OneSessionBehindAGap(a: Player, b: Player, c: Player) returns (run: seq<Label>)
    requires a != b && b != c && a != c
    ensures IsRun(run)
    ensures var s := After(run);
            && s.sessions == map[1 := Roster(1, [b], 1)]
            && s.stage == map[a := Gone, b := Waiting(1), c := Arrived]
            && s.closed == {}
  {
    run := BecomesLeader([], a);
    assert After(run).sessions == map[0 := Roster(0, [a], 1)];
    run := BecomesLeader(run, b);
    AfterStep(run, Connect(c));
    run := run + [Connect(c)];
    assert After(run).sessions == map[0 := Roster(0, [a], 1), 1 := Roster(1, [b], 1)];
    run := LosesLeader(run, a);
  }

  /** Identifiers are not fresh in every run: a third leader can find its own taken, and is dropped. */
  lemma SizeAsIdentifierCanCollide(a: Player, b: Player, c: Player) returns (run: seq<Label>)
    requires a != b && b != c && a != c
    ensures IsRun(run) && Enabled(After(run), Create(c)) && !IsFresh(After(run), Create(c))
    ensures c in Next(After(run), Create(c)).dropped
    ensures Next(After(run), Create(c)).sessions == After(run).sessions
  {
    run := OneSessionBehindAGap(a, b, c);
  }

  /** A third leader can also find its identifier at an entry whose roster was moved out, with no leader to read. */
  lemma EmptiedEntryCrashesALeader(a: Player, b: Player, c: Player, d: Player) returns (run: seq<Label>)
    requires a != b && b != c && a != c && d != a && d != b && d != c
    ensures IsRun(run) && Enabled(After(run), Create(c)) && Next(After(run), Create(c)).stage[c] == Crashed
  {
    run := OneSessionBehindAGap(a, b, c);
    run := Joins(run, d, 1);
    assert [b] + [d] == [b, d];
    assert After(run).sessions == map[1 := Roster(1, [b, d], 2)];
    run := Starts(run, b);
    AfterStep(run, MoveRoster(b));
    run := run + [MoveRoster(b)];
    assert After(run).sessions == map[1 := Roster(1, [], 2)];
  }

  /** After a collision with a session that has players two handlers lead it: here both have been allowed to start. */
  lemma TwoLeadersStart(a: Player, b: Player, c: Player, d: Player) returns (run: seq<Label>)
    requires a != b && b != c && a != c && d != a && d != b && d != c
    ensures IsRun(run)
    ensures var s := After(run);
            && s.sessions == map[1 := Roster(1, [b, d], 2)]
            && s.stage == map[a := Gone, b := Moving(1), c := Moving(1), d := Admitted(1)]
  {
    run := OneSessionBehindAGap(a, b, c);
    AfterStep(run, Create(c));
    run := run + [Create(c)];
    assert After(run).stage == map[a := Gone, b := Waiting(1), c := Waiting(1)];
    run := Joins(run, d, 1);
    assert [b] + [d] == [b, d];
    assert After(run).sessions == map[1 := Roster(1, [b, d], 2)];
    run := Starts(run, b);
    run := Starts(run, c);
  }

  /** The game of the second of them is built without players, where the first turn would look for player 0. */
  lemma SharedEntryGivesAnEmptyGame(a: Player, b: Player, c: Player, d: Player) returns (run: seq<Label>)
    requires a != b && b != c && a != c && d != a && d != b && d != c
    ensures IsRun(run) && c in After(run).games && After(run).games[c] == []
  {
    run := TwoLeadersStart(a, b, c, d);
    SecondMoveIsEmpty(After(run), b, c);
    AfterStep(run, MoveRoster(b));
    run := run + [MoveRoster(b)];
    AfterStep(run, MoveRoster(c));
    run := run + [MoveRoster(c)];
  }

  /** A run in which b joins the session of a, which is then lost and erases it, before b announces itself. */
  lemma ErasedBeforeAnnouncing(a: Player, b: Player) returns (run: seq<Label>)
    requires a != b
    ensures IsRun(run)
    ensures var s := After(run); s.sessions == map[] && s.stage == map[a := Gone, b := Announcing(0)]
  {
    run := BecomesLeader([], a);
    run := Joins(run, b, 0);
    AfterStep(run, AckJoin(b));
    run := run + [AckJoin(b)];
    run := LosesLeader(run, a);
  }

  /** The announcement then leaves an entry without players in the map. */
  lemma LateAnnouncementLeavesAnEntry(a: Player, b: Player) returns (run: seq<Label>)
    requires a != b
    ensures IsRun(run) && After(run).sessions == map[0 := Roster(0, [], 0)]
  {
    run := ErasedBeforeAnnouncing(a, b);
    AfterStep(run, AnnounceJoin(b));
    run := run + [AnnounceJoin(b)];
  }
}
