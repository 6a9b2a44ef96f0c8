/**
 * What one handler does from its start to its end, in every interleaving: the order of its steps, the room in a
 * session, and what becomes of a joiner that is refused.
 */
module LobbyScripts {
  import opened Lobby
  import opened LobbySafety
  import opened LobbyTheorems

  // ----- The order of a handler's steps

  /** The steps of the handler of p, without the closing of its socket, which can come at any time. */
  function Deeds(run: seq<Label>, p: Player): seq<Label> {
    if run == [] then []
    else
      var n := |run| - 1;
      Deeds(run[..n], p) + if run[n].p == p && !run[n].CloseSocket? then [run[n]] else []
  }

  /** The step b can come next after the step a in the program of a handler. */
  predicate Follows(a: Label, b: Label) {
    match a
    case Connect(_) => b.Create? || b.JoinSession? || b.JoinRandom?
    case Create(_) => b.StartMessage? || b.LoseLeader?
    case StartMessage(_) => b.StartMessage? || b.LoseLeader? || b.AnnounceStart?
    case AnnounceStart(_) => b.MoveRoster?
    case MoveRoster(_) => b.Erase?
    case LoseLeader(_) => b.Erase?
    case JoinSession(_, _) => b.AckJoin? || b.AckRefusal?
    case JoinRandom(_, _) => b.AckJoin? || b.Create?
    case AckJoin(_) => b.AnnounceJoin?
    case Erase(_) => false
    case AnnounceJoin(_) => false
    case AckRefusal(_) => false
    case CloseSocket(_) => false
  }

  ghost predicate IsScript(deeds: seq<Label>) {
    && (deeds != [] ==> deeds[0].Connect?)
    && forall i, k :: 0 <= i && k == i + 1 < |deeds| ==> Follows(deeds[i], deeds[k])
  }

  /** Where a handler stands behind its latest step. */
  predicate StandsBehind(stage: Stage, last: Label) {
    match stage
    case Arrived => last.Connect?
    case NoneFound => last.JoinRandom?
    case Waiting(_) => last.Create? || last.StartMessage?
    case Closing(_) => last.LoseLeader?
    case Starting(_) => last.StartMessage?
    case Moving(_) => last.AnnounceStart?
    case Erasing(_) => last.MoveRoster?
    case Playing => last.Erase?
    case Admitted(_) => last.JoinSession? || last.JoinRandom?
    case Announcing(_) => last.AckJoin?
    case Settled => last.AnnounceJoin?
    case Refused => last.JoinSession?
    case Gone => last.Erase? || last.AckRefusal?
    case Crashed => last.Create?
  }

  lemma OwnStep(s: State, l: Label)
    requires Enabled(s, l) && !l.CloseSocket?
    ensures l.p in Next(s, l).stage && StandsBehind(Next(s, l).stage[l.p], l)
  {
    if l.JoinSession? || l.JoinRandom? {
      var admitted, id, next := JoinStep(s, l);
    }
  }

  lemma OwnStepFollows(s: State, l: Label, last: Label)
    requires Enabled(s, l) && !l.CloseSocket?
    ensures l.Connect? <==> l.p !in s.stage
    ensures l.p in s.stage && StandsBehind(s.stage[l.p], last) ==> Follows(last, l)
  {
  }

  /** In every interleaving each handler takes its steps in the order of its program. */
  lemma {:induction false} HandlersFollowTheirScript(run: seq<Label>, p: Player)
    requires IsRun(run)
    ensures IsScript(Deeds(run, p))
    ensures Deeds(run, p) == [] <==> p !in After(run).stage
    ensures p in After(run).stage ==> StandsBehind(After(run).stage[p], Deeds(run, p)[|Deeds(run, p)| - 1])
    decreases |run|
  {
    if run != [] {
      var n := |run| - 1;
      LastStep(run);
      HandlersFollowTheirScript(run[..n], p);
      var s, l := After(run[..n]), run[n];
      if l.p == p && !l.CloseSocket? {
        OwnStep(s, l);
        var earlier := Deeds(run[..n], p);
        OwnStepFollows(s, l, if earlier == [] then l else earlier[|earlier| - 1]);
      } else if l.p != p {
        SameStage(s, l, p);
      }
    }
  }

  lemma SameStage(s: State, l: Label, p: Player)
    requires Enabled(s, l) && l.p != p
    ensures p in Next(s, l).stage <==> p in s.stage
    ensures p in s.stage ==> Next(s, l).stage[p] == s.stage[p]
  {
    if l.JoinSession? || l.JoinRandom? {
      var admitted, id, next := JoinStep(s, l);
    }
  }

  /** The handler of p has come to its end: it plays, has joined, has gone, or read a leader that is not there. */
  predicate IsAtEnd(stage: Stage) {
    stage.Playing? || stage.Settled? || stage.Gone? || stage.Crashed?
  }

  /** Unless two handlers own one entry, a handler that is not at its end can take a step. */
  lemma {:induction false} NobodyIsStuck(run: seq<Label>, p: Player)
    requires IsUnsharedRun(run) && p in After(run).stage && !IsAtEnd(After(run).stage[p])
    ensures exists l: Label :: l.p == p && !l.CloseSocket? && Enabled(After(run), l)
  {
    UnsharedRunsAreOwned(run);
    var s := After(run);
    assert OwnsEntry(s.stage[p]) ==> OwnEntry(s, p);
    var l := match s.stage[p]
      case Arrived => Create(p)
      case NoneFound => Create(p)
      case Waiting(_) => LoseLeader(p)
      case Starting(_) => AnnounceStart(p)
      case Moving(_) => MoveRoster(p)
      case Admitted(_) => AckJoin(p)
      case Announcing(_) => AnnounceJoin(p)
      case Refused => AckRefusal(p)
      case _ => Erase(p);
    assert l.p == p && Enabled(s, l);
  }

  /** A joiner without a preference goes on to be acknowledged, or else to create a session, and to nothing else. */
  lemma JoinRandomGoesOn(run: seq<Label>, p: Player, order: seq<int>)
    requires IsRun(run) && Enabled(After(run), JoinRandom(p, order))
    ensures var t := Next(After(run), JoinRandom(p, order));
            var next := if t.stage[p].Admitted? then AckJoin(p) else Create(p);
            forall l: Label :: l.p == p && !l.CloseSocket? ==> (Enabled(t, l) <==> l == next)
  {
    var admitted, id, next := JoinStep(After(run), JoinRandom(p, order));
  }

  /** A request to start changes nothing for a leader alone; else the handler goes on to announce it. */
  lemma StartGoesOn(run: seq<Label>, p: Player)
    requires IsRun(run) && Enabled(After(run), StartMessage(p))
    ensures var s, t := After(run), Next(After(run), StartMessage(p)); var r := s.sessions[s.stage[p].id];
            && t == s.(stage := t.stage)
            && (r.numPlayers == 1 ==> t == s)
            && (r.numPlayers != 1 ==>
                forall l: Label :: l.p == p && !l.CloseSocket? ==> (Enabled(t, l) <==> l == AnnounceStart(p)))
  {
  }

  /** The sockets that joins find closed are those that were closed. */
  lemma {:induction false} ClosedIff(run: seq<Label>, p: Player)
    requires IsRun(run)
    ensures p in After(run).closed <==> exists i :: 0 <= i < |run| && run[i] == CloseSocket(p)
    decreases |run|
  {
    if run != [] {
      var n := |run| - 1;
      LastStep(run);
      ClosedIff(run[..n], p);
      if run[n].JoinSession? || run[n].JoinRandom? {
        var admitted, id, next := JoinStep(After(run[..n]), run[n]);
      }
      assert forall i :: 0 <= i < n ==> run[i] == run[..n][i];
    }
  }

  // ----- Room

  /** A session whose leader's socket is open lets a player in while it has one to four, and nobody when it has five. */
  lemma {:induction false} RoomForFive(run: seq<Label>, p: Player, id: int)
    requires IsRun(run) && Enabled(After(run), JoinSession(p, id))
    requires id in After(run).sessions && After(run).sessions[id].players != []
    requires After(run).sessions[id].players[0] !in After(run).closed
    ensures var s, t := After(run), Next(After(run), JoinSession(p, id)); var players := s.sessions[id].players;
            && 1 <= |players| <= 5
            && (|players| <= 4 ==> t.stage[p] == Admitted(id) && t.sessions[id].players == players + [p])
            && (|players| == 5 ==> t.stage[p] == Refused && t.sessions == s.sessions)
  {
    RunsAreSane(run);
    assert Staffed(After(run).sessions[id]);
  }

  /** Five players can get into one session. */
  lemma FiveJoin(a: Player, b: Player, c: Player, d: Player, e: Player) returns (run: seq<Label>)
    requires |{a, b, c, d, e}| == 5
    ensures IsRun(run)
    ensures var s := After(run);
            && s.sessions == map[0 := Roster(0, [a, b, c, d, e], 5)]
            && a in s.stage && s.stage[a] == Waiting(0)
  {
    FiveDiffer(a, b, c, d, e);
    run := BecomesLeader([], a);
    run := Joins(run, b, 0);
    run := Joins(run, c, 0);
    run := Joins(run, d, 0);
    run := Joins(run, e, 0);
    assert [a] + [b] + [c] + [d] + [e] == [a, b, c, d, e];
  }

  lemma FiveDiffer(a: Player, b: Player, c: Player, d: Player, e: Player)
    requires |{a, b, c, d, e}| == 5
    ensures a != b && a != c && a != d && a != e && b != c && b != d && b != e && c != d && c != e && d != e
  {
    if a == b || a == c || a == d || a == e {
      SubsetSize({a, b, c, d, e}, {b, c, d, e});
    } else if b == c || b == d || b == e {
      SubsetSize({a, b, c, d, e}, {a, c, d, e});
    } else if c == d || c == e {
      SubsetSize({a, b, c, d, e}, {a, b, d, e});
    } else if d == e {
      SubsetSize({a, b, c, d, e}, {a, b, c, e});
    }
  }

  lemma SubsetSize(a: set<Player>, b: set<Player>)
    requires a <= b
    ensures |a| <= |b|
  {
    assert b == a + (b - a);
  }

  /** And into one game. */
  lemma FivePlay(a: Player, b: Player, c: Player, d: Player, e: Player) returns (run: seq<Label>)
    requires |{a, b, c, d, e}| == 5
    ensures IsRun(run)
    ensures a in After(run).games && After(run).games[a] == [a, b, c, d, e]
  {
    run := FiveJoin(a, b, c, d, e);
    run := Starts(run, a);
    AfterStep(run, MoveRoster(a));
    run := run + [MoveRoster(a)];
  }

  /** The move takes the players and leaves identifier and count. */
  lemma MoveInWords(run: seq<Label>, p: Player)
    requires IsRun(run) && Enabled(After(run), MoveRoster(p))
    ensures var s, t := After(run), Next(After(run), MoveRoster(p)); var id := s.stage[p].id;
            && t.games == s.games[p := s.sessions[id].players]
            && t.sessions == s.sessions[id := Roster(s.sessions[id].id, [], s.sessions[id].numPlayers)]
  {
  }

  // ----- Refusals

  /** Step i was a request of p to join a session that was not granted. */
  ghost predicate WasRefused(run: seq<Label>, i: nat, p: Player)
    requires i < |run|
  {
    && run[i].JoinSession? && run[i].p == p
    && p in After(run[..i + 1]).stage && !After(run[..i + 1]).stage[p].Admitted?
  }

  /** A refusal changes nothing but where the handler stands. */
  lemma RefusalChangesNothing(run: seq<Label>, p: Player, id: int)
    requires IsRun(run) && Enabled(After(run), JoinSession(p, id))
    ensures var s, t := After(run), Next(After(run), JoinSession(p, id));
            !t.stage[p].Admitted? ==> t == s.(stage := s.stage[p := Refused])
  {
  }

  lemma RefusedAt(run: seq<Label>, i: nat, p: Player)
    requires IsRun(run) && i < |run| && WasRefused(run, i, p)
    ensures p in After(run[..i + 1]).stage && After(run[..i + 1]).stage[p] == Refused
    ensures AckFailure(p) !in After(run[..i + 1]).log
  {
    StepAt(run, i);
    RunPrefix(run, i);
    RunPrefix(run, i + 1);
    RefusalChangesNothing(run[..i], p, run[i].id);
    RunsAreSane(run[..i + 1]);
  }

  /** A refused handler waits to be answered, and is gone afterwards. */
  lemma {:induction false} RefusedWaits(run: seq<Label>, i: nat, p: Player)
    requires IsRun(run) && i < |run| && WasRefused(run, i, p)
    ensures var s := After(run);
            p in s.stage && s.stage[p] == (if AckFailure(p) in s.log then Gone else Refused)
    decreases |run|
  {
    var n := |run| - 1;
    assert run[..|run|] == run;
    if i == n {
      RefusedAt(run, i, p);
    } else {
      LastStep(run);
      assert run[..n][..i + 1] == run[..i + 1];
      RefusedWaits(run[..n], i, p);
      var s := After(run[..n]);
      if run[n].JoinSession? || run[n].JoinRandom? {
        var admitted, id, next := JoinStep(s, run[n]);
      }
    }
  }

  /** Nobody has p in its roster. */
  ghost predicate IsInNoRoster(s: State, p: Player) {
    && (forall id :: id in s.sessions ==> p !in s.sessions[id].players)
    && (forall h :: h in s.games ==> p !in s.games[h])
  }

  lemma ElsewhereMeansInNoRoster(s: State, p: Player, place: Place)
    requires Placed(s) && Holds(s, p, place) && (place == WithHandler || place == Dropped)
    ensures IsInNoRoster(s, p)
  {
    forall id, k | id in s.sessions && 0 <= k < |s.sessions[id].players|
      ensures s.sessions[id].players[k] != p
    {
      assert Holds(s, s.sessions[id].players[k], InSession(id, k));
    }
    forall h, k | h in s.games && 0 <= k < |s.games[h]|
      ensures s.games[h][k] != p
    {
      assert Holds(s, s.games[h][k], InGame(h, k));
    }
  }

  /** A handler that waits to answer a refusal can do only that, and one that is gone nothing. */
  lemma OnlyTheRefusalIsLeft(s: State, p: Player, l: Label)
    requires p in s.stage && (s.stage[p].Refused? || s.stage[p].Gone?) && l.p == p && !l.CloseSocket?
    ensures Enabled(s, l) <==> l == AckRefusal(p) && s.stage[p].Refused?
  {
  }

  lemma RefusedIsInNoRoster(run: seq<Label>, i: nat, p: Player)
    requires IsRun(run) && i < |run| && WasRefused(run, i, p)
    ensures IsInNoRoster(After(run), p)
    ensures AckFailure(p) in After(run).log ==> p in After(run).dropped
  {
    RunsAreSane(run);
    RefusedWaits(run, i, p);
    if AckFailure(p) in After(run).log {
      RefusedIsDropped(run, p);
      ElsewhereMeansInNoRoster(After(run), p, Dropped);
    } else {
      ElsewhereMeansInNoRoster(After(run), p, WithHandler);
    }
  }

  /**
   * A joiner that was refused is never again in a roster and creates no session: all that is left to it is to be
   * told so, once, and then it is dropped.
   */
  lemma {:induction false} RefusedJoinersAreOut(run: seq<Label>, i: nat, p: Player)
    requires IsRun(run) && i < |run| && WasRefused(run, i, p)
    ensures IsInNoRoster(After(run), p)
    ensures !Enabled(After(run), Create(p))
    ensures forall l: Label :: l.p == p && !l.CloseSocket? ==>
              (Enabled(After(run), l) <==> l == AckRefusal(p) && AckFailure(p) !in After(run).log)
    ensures AckFailure(p) in After(run).log ==> p in After(run).dropped
  {
    RefusedIsInNoRoster(run, i, p);
    RefusedWaits(run, i, p);
    var s := After(run);
    forall l: Label | l.p == p && !l.CloseSocket?
      ensures Enabled(s, l) <==> l == AckRefusal(p) && AckFailure(p) !in s.log
    {
      OnlyTheRefusalIsLeft(s, p, l);
    }
  }

  /** Being told puts the failure into the log and drops the player. */
  lemma TellingDrops(run: seq<Label>, p: Player)
    requires IsRun(run) && Enabled(After(run), AckRefusal(p))
    ensures var t := Next(After(run), AckRefusal(p));
            AckFailure(p) in t.log && p in t.dropped && IsInNoRoster(t, p)
  {
    AfterStep(run, AckRefusal(p));
    RunsAreSane(run + [AckRefusal(p)]);
    ElsewhereMeansInNoRoster(After(run + [AckRefusal(p)]), p, Dropped);
  }

  /** Step i refused p, and step j told it so. */
  ghost predicate WasTold(run: seq<Label>, i: nat, j: nat, p: Player) {
    i < j < |run| && WasRefused(run, i, p) && run[j] == AckRefusal(p)
  }

  /** A failure is sent exactly to those who asked to join a session, were refused, and have been answered. */
  lemma FailureIffRefusedAndTold(run: seq<Label>, p: Player)
    requires IsRun(run)
    ensures AckFailure(p) in After(run).log <==> exists i: nat, j: nat :: WasTold(run, i, j, p)
  {
    if AckFailure(p) in After(run).log {
      var i, j := FailureHadReason(run, p);
    }
    if i: nat, j: nat :| WasTold(run, i, j, p) {
      ToldIsLogged(run, j, p);
    }
  }

  lemma FailureHadReason(run: seq<Label>, p: Player) returns (i: nat, j: nat)
    requires IsRun(run) && AckFailure(p) in After(run).log
    ensures WasTold(run, i, j, p)
  {
    j := FailureWasTold(run, p);
    RunPrefix(run, j);
    i := RefusedHadAsked(run[..j], p);
    assert run[..j][..i + 1] == run[..i + 1];
  }

  lemma ToldIsLogged(run: seq<Label>, j: nat, p: Player)
    requires IsRun(run) && j < |run| && run[j] == AckRefusal(p)
    ensures AckFailure(p) in After(run).log
  {
    StepAt(run, j);
    LogOnlyGrowsInRuns(run, j + 1);
    var log := After(run[..j]).log;
    assert After(run[..j + 1]).log == log + [AckFailure(p)];
    assert After(run).log[|log|] == AckFailure(p);
  }

  lemma {:induction false} FailureWasTold(run: seq<Label>, p: Player) returns (j: nat)
    requires IsRun(run) && AckFailure(p) in After(run).log
    ensures j < |run| && run[j] == AckRefusal(p)
    ensures p in After(run[..j]).stage && After(run[..j]).stage[p].Refused?
    decreases |run|
  {
    var n := |run| - 1;
    LastStep(run);
    var s := After(run[..n]);
    if AckFailure(p) in s.log {
      j := FailureWasTold(run[..n], p);
      assert run[..n][..j] == run[..j];
    } else {
      if run[n].JoinSession? || run[n].JoinRandom? {
        var admitted, id, next := JoinStep(s, run[n]);
      }
      j := n;
    }
  }

  lemma {:induction false} RefusedHadAsked(run: seq<Label>, p: Player) returns (i: nat)
    requires IsRun(run) && p in After(run).stage && After(run).stage[p].Refused?
    ensures i < |run| && WasRefused(run, i, p)
    decreases |run|
  {
    var n := |run| - 1;
    LastStep(run);
    var s := After(run[..n]);
    if p in s.stage && s.stage[p].Refused? {
      i := RefusedHadAsked(run[..n], p);
      assert run[..n][..i + 1] == run[..i + 1];
    } else {
      if run[n].p != p {
        SameStage(s, run[n], p);
      } else {
        OwnStep(s, run[n]);
      }
      i := n;
      assert run[..n + 1] == run;
    }
  }
}
