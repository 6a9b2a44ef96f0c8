/**
 * The lobby as a transition system: any number of connection handlers over one shared map of sessions. Every
 * critical section is one step, and so is the move of a roster into a game.
 */
module Lobby {

  /** A connected player; each has one handler, which this number names as well. */
  type Player = nat

  const MAX_PLAYERS := 5

  /** A session: its leader is player 0 of players. */
  datatype Roster = Roster(id: int, players: seq<Player>, numPlayers: int)

  /** What reading an absent key of the map puts there. */
  const DEFAULT_ROSTER := Roster(0, [], 0)

  /** Where a handler stands. Crashed is behind a read of the leader of a roster without players, which is undefined. */
  datatype Stage =
    | Arrived
    | NoneFound
    | Waiting(id: int)
    | Closing(id: int)
    | Starting(id: int)
    | Moving(id: int)
    | Erasing(id: int)
    | Playing
    | Admitted(id: int)
    | Announcing(id: int)
    | Settled
    | Refused
    | Gone
    | Crashed

  datatype Event =
    | Join(joiner: Player, leader: Player)
    | Move(leader: Player)
    | AckSuccess(joiner: Player)
    | AckFailure(joiner: Player)

  datatype Place = WithHandler | InSession(id: int, index: nat) | InGame(leader: Player, index: nat) | Dropped

  /**
   * games maps a leader to the roster its game was built with. closed are the players whose socket the server
   * has closed. log and place only record: the events in order, and where each player was put.
   */
  datatype State = State(
    sessions: map<int, Roster>,
    stage: map<Player, Stage>,
    games: map<Player, seq<Player>>,
    dropped: set<Player>,
    closed: set<Player>,
    log: seq<Event>,
    place: map<Player, Place>)

  const INITIAL := State(map[], map[], map[], {}, {}, [], map[])

  datatype Label =
    | Connect(p: Player)
    | CloseSocket(p: Player)
    | Create(p: Player)
    | JoinSession(p: Player, id: int)
    | JoinRandom(p: Player, order: seq<int>)
    | LoseLeader(p: Player)
    | StartMessage(p: Player)
    | AnnounceStart(p: Player)
    | MoveRoster(p: Player)
    | Erase(p: Player)
    | AckJoin(p: Player)
    | AnnounceJoin(p: Player)
    | AckRefusal(p: Player)

  // ----- Joining

  /** Why a session refuses a joiner: it has no leader, the leader's socket is closed, or it is full. */
  predicate Accepts(r: Roster, closed: set<Player>) {
    && |r.players| > 0
    && r.players[0] !in closed
    && r.numPlayers < MAX_PLAYERS
  }

  function WithJoiner(r: Roster, p: Player): Roster {
    r.(players := r.players + [p], numPlayers := r.numPlayers + 1)
  }

  /** The first session in scan order that accepts. */
  datatype Found = At(id: int) | Nowhere

  function FirstAccepting(sessions: map<int, Roster>, order: seq<int>, closed: set<Player>): Found
    requires forall i :: 0 <= i < |order| ==> order[i] in sessions
  {
    if order == [] then Nowhere
    else if Accepts(sessions[order[0]], closed) then At(order[0])
    else FirstAccepting(sessions, order[1..], closed)
  }

  /** One iteration of the scan. */
  lemma ScanStep(sessions: map<int, Roster>, order: seq<int>, closed: set<Player>, i: nat)
    requires i < |order| && forall k :: 0 <= k < |order| ==> order[k] in sessions
    ensures FirstAccepting(sessions, order[i..], closed)
            == if Accepts(sessions[order[i]], closed) then At(order[i])
               else FirstAccepting(sessions, order[i + 1..], closed)
  {
    assert order[i..][1..] == order[i + 1..];
  }

  /** Every entry of the map once, in any order. */
  ghost predicate IsScanOrder(sessions: map<int, Roster>, order: seq<int>) {
    && (forall i :: 0 <= i < |order| ==> order[i] in sessions)
    && (forall id :: id in sessions ==> id in order)
    && (forall i, j :: 0 <= i < j < |order| ==> order[i] != order[j])
  }

  /** Position k of the scan accepts, and no position before it does. */
  ghost predicate AcceptsFirst(sessions: map<int, Roster>, order: seq<int>, closed: set<Player>, k: nat)
    requires forall i :: 0 <= i < |order| ==> order[i] in sessions
  {
    && k < |order|
    && Accepts(sessions[order[k]], closed)
    && forall i :: 0 <= i < k ==> !Accepts(sessions[order[i]], closed)
  }

  /** The session found is the first that accepts; nothing is found only if no session accepts. */
  lemma {:induction false} FirstAcceptingIsFirst(sessions: map<int, Roster>, order: seq<int>, closed: set<Player>)
    requires forall i :: 0 <= i < |order| ==> order[i] in sessions
    ensures match FirstAccepting(sessions, order, closed)
            case At(id) => id in sessions && Accepts(sessions[id], closed)
                           && exists k: nat :: AcceptsFirst(sessions, order, closed, k) && order[k] == id
            case Nowhere => forall id :: id in order ==> id in sessions && !Accepts(sessions[id], closed)
  {
    if order != [] && Accepts(sessions[order[0]], closed) {
      assert AcceptsFirst(sessions, order, closed, 0);
    } else if order != [] {
      var tail := order[1..];
      assert forall i :: 0 < i < |order| ==> order[i] == tail[i - 1];
      FirstAcceptingIsFirst(sessions, tail, closed);
      var found := FirstAccepting(sessions, tail, closed);
      if found.At? {
        var k: nat :| AcceptsFirst(sessions, tail, closed, k) && tail[k] == found.id;
        assert forall i :: 0 <= i < k ==> tail[i] == order[i + 1];
        assert AcceptsFirst(sessions, order, closed, k + 1) && order[k + 1] == found.id;
      }
    }
  }

  // ----- Steps

  predicate OwnsEntry(stage: Stage) {
    stage.Waiting? || stage.Closing? || stage.Starting? || stage.Moving? || stage.Erasing?
  }

  ghost predicate Enabled(s: State, l: Label) {
    match l
    case Connect(p) => p !in s.stage
    case CloseSocket(p) => p in s.stage
    case Create(p) => p in s.stage && (s.stage[p].Arrived? || s.stage[p].NoneFound?)
    case JoinSession(p, _) => p in s.stage && s.stage[p].Arrived?
    case JoinRandom(p, order) => p in s.stage && s.stage[p].Arrived? && IsScanOrder(s.sessions, order)
    case LoseLeader(p) => p in s.stage && s.stage[p].Waiting?
    case StartMessage(p) => p in s.stage && s.stage[p].Waiting? && s.stage[p].id in s.sessions
    case AnnounceStart(p) => p in s.stage && s.stage[p].Starting?
    case MoveRoster(p) => p in s.stage && s.stage[p].Moving? && s.stage[p].id in s.sessions
    case Erase(p) => p in s.stage && (s.stage[p].Closing? || s.stage[p].Erasing?)
    case AckJoin(p) => p in s.stage && s.stage[p].Admitted?
    case AnnounceJoin(p) => p in s.stage && s.stage[p].Announcing?
    case AckRefusal(p) => p in s.stage && s.stage[p].Refused?
  }

  /** The identifier that the next session gets. */
  function NextId(s: State): int {
    |s.sessions|
  }

  function Admit(s: State, p: Player, id: int): State
    requires id in s.sessions && |s.sessions[id].players| > 0
  {
    var r := s.sessions[id];
    s.(sessions := s.sessions[id := WithJoiner(r, p)],
       stage := s.stage[p := Admitted(id)],
       log := s.log + [Join(p, r.players[0])],
       place := s.place[p := InSession(id, |r.players|)])
  }

  function Refuse(s: State, p: Player): State {
    s.(stage := s.stage[p := Refused])
  }

  function Next(s: State, l: Label): State
    requires Enabled(s, l)
  {
    match l
    case Connect(p) =>
      s.(stage := s.stage[p := Arrived], place := s.place[p := WithHandler])
    case CloseSocket(p) =>
      s.(closed := s.closed + {p})
    case Create(p) =>
      var id := NextId(s);
      if id in s.sessions then
        s.(stage := s.stage[p := if s.sessions[id].players == [] then Crashed else Waiting(id)],
           dropped := s.dropped + {p},
           place := s.place[p := Dropped])
      else
        s.(sessions := s.sessions[id := Roster(id, [p], 1)],
           stage := s.stage[p := Waiting(id)],
           place := s.place[p := InSession(id, 0)])
    case JoinSession(p, id) =>
      if id !in s.sessions || s.sessions[id].numPlayers >= MAX_PLAYERS then Refuse(s, p)
      else if !Accepts(s.sessions[id], s.closed) then Refuse(s, p)
      else Admit(s, p, id)
    case JoinRandom(p, order) =>
      var found := FirstAccepting(s.sessions, order, s.closed);
      if found.At? then
        FirstAcceptingIsFirst(s.sessions, order, s.closed);
        Admit(s, p, found.id)
      else s.(stage := s.stage[p := NoneFound])
    case LoseLeader(p) =>
      s.(stage := s.stage[p := Closing(s.stage[p].id)])
    case StartMessage(p) =>
      if s.sessions[s.stage[p].id].numPlayers == 1 then s
      else s.(stage := s.stage[p := Starting(s.stage[p].id)])
    case AnnounceStart(p) =>
      s.(stage := s.stage[p := Moving(s.stage[p].id)])
    case MoveRoster(p) =>
      var id := s.stage[p].id;
      var r := s.sessions[id];
      s.(sessions := s.sessions[id := r.(players := [])],
         stage := s.stage[p := Erasing(id)],
         games := s.games[p := r.players],
         log := s.log + [Move(p)],
         place := map q | q in s.place ::
           if s.place[q].InSession? && s.place[q].id == id then InGame(p, s.place[q].index) else s.place[q])
    case Erase(p) =>
      var id := s.stage[p].id;
      var lost := if id in s.sessions then (set q | q in s.sessions[id].players) else {};
      s.(sessions := s.sessions - {id},
         stage := s.stage[p := if s.stage[p].Erasing? then Playing else Gone],
         dropped := s.dropped + lost,
         place := map q | q in s.place :: if q in lost then Dropped else s.place[q])
    case AckJoin(p) =>
      s.(stage := s.stage[p := Announcing(s.stage[p].id)], log := s.log + [AckSuccess(p)])
    case AnnounceJoin(p) =>
      var id := s.stage[p].id;
      s.(stage := s.stage[p := Settled],
         sessions := if id in s.sessions then s.sessions else s.sessions[id := DEFAULT_ROSTER])
    case AckRefusal(p) =>
      s.(stage := s.stage[p := Gone],
         dropped := s.dropped + {p},
         log := s.log + [AckFailure(p)],
         place := s.place[p := Dropped])
  }

  // ----- Runs

  ghost function After(run: seq<Label>): State {
    if run == [] then INITIAL
    else
      var before := After(run[..|run| - 1]);
      if Enabled(before, run[|run| - 1]) then Next(before, run[|run| - 1]) else before
  }

  ghost predicate IsStep(run: seq<Label>, i: nat)
    requires i < |run|
  {
    Enabled(After(run[..i]), run[i])
  }

  /** An interleaving of handlers. */
  ghost predicate IsRun(run: seq<Label>) {
    forall i :: 0 <= i < |run| ==> IsStep(run, i)
  }

  lemma RunPrefix(run: seq<Label>, i: nat)
    requires IsRun(run) && i <= |run|
    ensures IsRun(run[..i])
  {
    forall k | 0 <= k < i
      ensures IsStep(run[..i], k)
    {
      assert IsStep(run, k);
      assert run[..i][..k] == run[..k];
    }
  }

  lemma LastStep(run: seq<Label>)
    requires IsRun(run) && run != []
    ensures var n := |run| - 1; var before := After(run[..n]);
            && IsRun(run[..n])
            && Enabled(before, run[n])
            && After(run) == Next(before, run[n])
  {
    RunPrefix(run, |run| - 1);
    assert IsStep(run, |run| - 1);
  }

  /** Step i of a run. */
  lemma StepAt(run: seq<Label>, i: nat)
    requires IsRun(run) && i < |run|
    ensures Enabled(After(run[..i]), run[i])
    ensures After(run[..i + 1]) == Next(After(run[..i]), run[i])
  {
    assert IsStep(run, i);
    assert run[..i + 1][..i] == run[..i];
  }

  lemma AfterStep(run: seq<Label>, l: Label)
    requires Enabled(After(run), l)
    ensures After(run + [l]) == Next(After(run), l)
    ensures IsRun(run) ==> IsRun(run + [l])
  {
    var longer := run + [l];
    assert longer[..|run|] == run;
    if IsRun(run) {
      forall i | 0 <= i < |longer|
        ensures IsStep(longer, i)
      {
        if i < |run| {
          assert IsStep(run, i);
          assert longer[..i] == run[..i];
        }
      }
    }
  }

  // ----- Identifiers

  /** A session is created under an identifier that the map does not hold. */
  predicate IsFresh(s: State, l: Label) {
    l.Create? ==> NextId(s) !in s.sessions
  }

  /** A session is not created under the identifier of an entry with players. */
  predicate SharesNoEntry(s: State, l: Label) {
    l.Create? && NextId(s) in s.sessions ==> s.sessions[NextId(s)].players == []
  }

  ghost predicate IsFreshRun(run: seq<Label>) {
    IsRun(run) && forall i :: 0 <= i < |run| ==> IsFresh(After(run[..i]), run[i])
  }

  ghost predicate IsUnsharedRun(run: seq<Label>) {
    IsRun(run) && forall i :: 0 <= i < |run| ==> SharesNoEntry(After(run[..i]), run[i])
  }

  lemma FreshRunsAreUnshared(run: seq<Label>)
    requires IsFreshRun(run)
    ensures IsUnsharedRun(run)
  {
    forall i | 0 <= i < |run|
      ensures SharesNoEntry(After(run[..i]), run[i])
    {
      assert IsFresh(After(run[..i]), run[i]);
    }
  }

  lemma UnsharedPrefix(run: seq<Label>, i: nat)
    requires IsUnsharedRun(run) && i <= |run|
    ensures IsUnsharedRun(run[..i])
  {
    RunPrefix(run, i);
    forall k | 0 <= k < i
      ensures SharesNoEntry(After(run[..i][..k]), run[..i][k])
    {
      assert run[..i][..k] == run[..k];
      assert SharesNoEntry(After(run[..k]), run[k]);
    }
  }
}
