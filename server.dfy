/**
 * The server's shared state and its operations without locks or transport:
 * the player registry, the lobby queue, the session table, registration,
 * matchmaking, the move mailbox and the status projection.
 */
module Server {
  import opened Wrappers
  import opened Cities
  import opened Turns
  import opened Session

  /** A registry entry: id, display name, and the session once assigned. */
  datatype PlayerRecord = PlayerRecord(id: nat, name: string, session: Option<nat>)

  /** The shapes `get_game_update` returns. */
  datatype Update =
    | NotRegistered
    | Waiting
    | SessionNotFound
    | GameOver(winner: Option<string>, eliminated: seq<string>)
    | InGame(sessionId: nat, currentCity: Option<string>, yourTurn: bool, players: seq<string>)

  /** The replies of `submit_move`. */
  datatype MoveReply = UnknownPlayer | NoSession | NoSuchSession | NotYourTurn | MoveTaken(move: string)

  const MinPlayers: nat := 3
  const MaxPlayers: nat := 5

  /**
   * How many waiting players matchmaking takes from a lobby of `n`: none
   * below three, otherwise all of them up to five.
   */
  function TakeCount(n: nat): (k: nat)
    ensures k <= n && k <= MaxPlayers
    ensures k == 0 <==> n < MinPlayers
    ensures k > 0 ==> k >= MinPlayers && (k == n || k == MaxPlayers)
  {
    if n < MinPlayers then 0 else if n < MaxPlayers then n else MaxPlayers
  }

  /** The session roster built from lobby ids, in queue order. */
  function Roster(registry: map<nat, PlayerRecord>, ids: seq<nat>): (r: seq<Member>)
    requires forall i :: 0 <= i < |ids| ==> ids[i] in registry
    ensures |r| == |ids|
    ensures forall i :: 0 <= i < |ids| ==> r[i] == Member(ids[i], registry[ids[i]].name)
  {
    seq(|ids|, i requires 0 <= i < |ids| => Member(ids[i], registry[ids[i]].name))
  }

  class GameServer {
    var nextPlayerId: nat
    var nextSessionId: nat
    var registry: map<nat, PlayerRecord>
    var lobby: seq<nat>
    var sessions: map<nat, GameSession>

    /** Every session keeps the turn-loop invariant and has someone on its roster. */
    predicate SessionsValid()
      reads this, sessions.Values
    {
      forall s :: s in sessions.Values ==> s.Valid() && |s.players| > 0
    }

    /**
     * Ids are issued from the counters and never reused; every lobby entry
     * is a registered player without a session, listed once; every session
     * id a player holds names a recorded session.
     */
    predicate Valid()
      reads this, sessions.Values
    {
      && 1 <= nextPlayerId && 1 <= nextSessionId
      && (forall id :: id in registry ==> 1 <= id < nextPlayerId && registry[id].id == id)
      && (forall i :: 0 <= i < |lobby| ==> lobby[i] in registry && registry[lobby[i]].session.None?)
      && (forall i, j :: 0 <= i < j < |lobby| ==> lobby[i] != lobby[j])
      && (forall sid :: sid in sessions ==> 1 <= sid < nextSessionId && sessions[sid].sessionId == sid)
      && (forall id :: id in registry && registry[id].session.Some? ==> registry[id].session.value in sessions)
      && SessionsValid()
    }

    constructor ()
      ensures Valid()
      ensures nextPlayerId == 1 && nextSessionId == 1
      ensures registry == map[] && lobby == [] && sessions == map[]
    {
      nextPlayerId := 1;
      nextSessionId := 1;
      registry := map[];
      lobby := [];
      sessions := map[];
    }

    /** The `lobby.pop(0)` loop: the first `n` waiting ids, in queue order. */
    method PopLobby(n: nat) returns (taken: seq<nat>)
      requires n <= |lobby|
      modifies this`lobby
      ensures taken == old(lobby)[..n] && lobby == old(lobby)[n..]
    {
      taken := [];
      for k := 0 to n
        invariant |taken| == k
        invariant taken + lobby == old(lobby)
      {
        taken := taken + [lobby[0]];
        lobby := lobby[1..];
      }
    }

    /** The `p['session'] = session_id` loop over the new roster. */
    method AssignSession(ids: seq<nat>, sid: nat)
      requires forall i :: 0 <= i < |ids| ==> ids[i] in registry
      modifies this`registry
      ensures registry.Keys == old(registry).Keys
      ensures forall id :: id in registry ==> registry[id].id == old(registry)[id].id && registry[id].name == old(registry)[id].name
      ensures forall i :: 0 <= i < |ids| ==> registry[ids[i]].session == Some(sid)
      ensures forall id :: id in registry && id !in ids ==> registry[id] == old(registry)[id]
    {
      for k := 0 to |ids|
        invariant registry.Keys == old(registry).Keys
        invariant forall id :: id in registry ==> registry[id].id == old(registry)[id].id && registry[id].name == old(registry)[id].name
        invariant forall i :: 0 <= i < k ==> registry[ids[i]].session == Some(sid)
        invariant forall id :: id in registry && id !in ids[..k] ==> registry[id] == old(registry)[id]
      {
        var p := ids[k];
        registry := registry[p := registry[p].(session := Some(sid))];
        assert ids[..k + 1] == ids[..k] + [p];
      }
      assert ids[..|ids|] == ids;
    }

    /**
     * The second half of `attempt_create_session`: the ids taken from the
     * lobby get the next session id and a new session with them as roster,
     * in that order, is recorded.
     */
    method OpenSession(taken: seq<nat>)
      requires Valid()
      requires |taken| > 0
      requires forall i :: 0 <= i < |taken| ==> taken[i] in registry && registry[taken[i]].session.None?
      requires forall i, j :: 0 <= i < |lobby| && 0 <= j < |taken| ==> lobby[i] != taken[j]
      modifies this
      ensures Valid()
      ensures nextPlayerId == old(nextPlayerId) && lobby == old(lobby)
      ensures registry.Keys == old(registry).Keys
      ensures forall id :: id in registry ==>
        registry[id].id == old(registry)[id].id && registry[id].name == old(registry)[id].name
      ensures forall id :: id in registry && id !in taken ==> registry[id] == old(registry)[id]
      ensures forall i :: 0 <= i < |taken| ==> registry[taken[i]].session == Some(old(nextSessionId))
      ensures nextSessionId == old(nextSessionId) + 1
      ensures old(nextSessionId) !in old(sessions) && old(nextSessionId) in sessions
      ensures sessions == old(sessions)[old(nextSessionId) := sessions[old(nextSessionId)]]
      ensures var s := sessions[old(nextSessionId)];
        && fresh(s) && s.sessionId == old(nextSessionId) && !s.gameOver
        && s.State() == Start(Roster(old(registry), taken))
    {
      var roster := Roster(registry, taken);
      var sid := nextSessionId;
      nextSessionId := nextSessionId + 1;
      AssignSession(taken, sid);
      var s := new GameSession(sid, roster);
      sessions := sessions[sid := s];
      assert sid !in old(sessions);
      forall x | x in sessions.Values
        ensures x.Valid() && |x.players| > 0
      {
        var k :| k in sessions && sessions[k] == x;
        if k != sid {
          assert old(sessions)[k] == x;
        }
      }
    }

    /**
     * `attempt_create_session`: with at least three players waiting, the
     * first min(5, |lobby|) leave the lobby in queue order, each is given the
     * next session id, and a new session with that roster is recorded.
     */
    method AttemptCreateSession()
      requires Valid()
      modifies this
      ensures Valid()
      ensures nextPlayerId == old(nextPlayerId)
      ensures lobby == old(lobby)[TakeCount(|old(lobby)|)..]
      ensures registry.Keys == old(registry).Keys
      ensures forall id :: id in registry ==>
        registry[id].id == old(registry)[id].id && registry[id].name == old(registry)[id].name
      ensures forall id :: id in registry && id !in old(lobby)[..TakeCount(|old(lobby)|)] ==>
        registry[id] == old(registry)[id]
      ensures forall i :: 0 <= i < TakeCount(|old(lobby)|) ==> registry[old(lobby)[i]].session == Some(old(nextSessionId))
      ensures TakeCount(|old(lobby)|) == 0 ==> sessions == old(sessions) && nextSessionId == old(nextSessionId)
      ensures TakeCount(|old(lobby)|) > 0 ==>
        && nextSessionId == old(nextSessionId) + 1
        && old(nextSessionId) !in old(sessions) && old(nextSessionId) in sessions
        && sessions == old(sessions)[old(nextSessionId) := sessions[old(nextSessionId)]]
      ensures TakeCount(|old(lobby)|) > 0 ==>
        var s := sessions[old(nextSessionId)];
        && fresh(s) && s.sessionId == old(nextSessionId) && !s.gameOver
        && s.State() == Start(Roster(old(registry), old(lobby)[..TakeCount(|old(lobby)|)]))
    {
      var taken: seq<nat> := [];
      if |lobby| >= MinPlayers {
        var n := if |lobby| < MaxPlayers then |lobby| else MaxPlayers;
        taken := PopLobby(n);
      }
      assert taken == old(lobby)[..TakeCount(|old(lobby)|)] && lobby == old(lobby)[|taken|..];
      if taken != [] {
        forall i, j | 0 <= i < |lobby| && 0 <= j < |taken|
          ensures lobby[i] != taken[j]
        {
          assert lobby[i] == old(lobby)[|taken| + i] && taken[j] == old(lobby)[j];
        }
        OpenSession(taken);
      }
    }

    /**
     * The first half of `register_player`: the next id, a registry entry
     * without a session, and a place at the end of the lobby.
     */
    method Enqueue(name: string) returns (id: nat)
      requires Valid()
      modifies this`nextPlayerId, this`registry, this`lobby
      ensures Valid()
      ensures id == old(nextPlayerId) && nextPlayerId == id + 1 && id !in old(registry)
      ensures registry == old(registry)[id := PlayerRecord(id, name, None)]
      ensures lobby == old(lobby) + [id]
    {
      id := nextPlayerId;
      assert id !in registry && id !in lobby;
      nextPlayerId := nextPlayerId + 1;
      registry := registry[id := PlayerRecord(id, name, None)];
      lobby := lobby + [id];
    }

    /**
     * `register_player`: a fresh id, a registry entry with no session, a
     * place at the end of the lobby, then a matchmaking attempt.
     */
    method RegisterPlayer(name: string) returns (id: nat)
      requires Valid()
      modifies this
      ensures Valid()
      ensures id == old(nextPlayerId) && nextPlayerId == id + 1 && id !in old(registry)
      ensures registry.Keys == old(registry).Keys + {id} && registry[id].name == name
      ensures var queue, sid := old(lobby) + [id], old(nextSessionId);
        var n := TakeCount(|queue|);
        && lobby == queue[n..]
        && (n == 0 ==> sessions == old(sessions) && registry[id].session == None)
        && (n > 0 ==>
              && nextSessionId == sid + 1
              && sessions.Keys == old(sessions).Keys + {sid}
              && sessions[sid].State() == Start(Roster(old(registry)[id := PlayerRecord(id, name, None)], queue[..n]))
              && forall i :: 0 <= i < n ==> registry[queue[i]].session == Some(sid))
      ensures var queue, sid := old(lobby) + [id], old(nextSessionId);
        var n := TakeCount(|queue|);
        && (forall q :: q in old(registry) && q !in queue[..n] ==> registry[q] == old(registry)[q])
        && (id !in queue[..n] ==> registry[id] == PlayerRecord(id, name, None))
        && (n == 0 ==> nextSessionId == old(nextSessionId))
        && (n > 0 ==> sid !in old(sessions) && sessions == old(sessions)[sid := sessions[sid]] && fresh(sessions[sid]))
      ensures |old(lobby)| < MinPlayers ==> |lobby| < MinPlayers
    {
      id := Enqueue(name);
      AttemptCreateSession();
    }

    /** The session a player's registry entry points at, when it exists. */
    function SessionOf(pid: nat): (s: Option<GameSession>)
      reads this
      ensures s.Some? <==> pid in registry && registry[pid].session.Some? && registry[pid].session.value in sessions
      ensures s.Some? ==> s.value in sessions.Values
      ensures s.Some? ==> s.value == sessions[registry[pid].session.value]
    {
      if pid in registry && registry[pid].session.Some? && registry[pid].session.value in sessions
      then Some(sessions[registry[pid].session.value])
      else None
    }

    /**
     * `get_game_update`: a read-only status view, characterised by
     * `UpdateShapes`.
     */
    function GetGameUpdate(pid: nat): Update
      requires SessionsValid()
      reads this, sessions.Values
    {
      if pid !in registry then NotRegistered
      else match registry[pid].session
        case None => Waiting
        case Some(sid) =>
          if sid !in sessions then SessionNotFound
          else
            var s := sessions[sid];
            if s.gameOver then GameOver(Turns.Winner(s.State()), s.eliminated)
            else InGame(sid, s.current, s.players[s.turn].id == pid, Names(s.players))
    }

    /**
     * The shapes of the status view: unregistered and session-less players
     * get the error and waiting shapes; a finished session reports its
     * winner and eliminations; a running one its current city, whether the
     * caller is the active player, and the roster names.
     */
    lemma UpdateShapes(pid: nat)
      requires SessionsValid()
      ensures var u := GetGameUpdate(pid);
        && (u == NotRegistered <==> pid !in registry)
        && (u == Waiting <==> pid in registry && registry[pid].session.None?)
        && (u == SessionNotFound <==> pid in registry && registry[pid].session.Some? && SessionOf(pid).None?)
        && (SessionOf(pid).Some? ==> var s := SessionOf(pid).value;
             && (u.GameOver? <==> s.gameOver)
             && (u.InGame? <==> !s.gameOver)
             && (u.GameOver? ==> u.winner == Turns.Winner(s.State()) && u.eliminated == s.eliminated)
             && (u.InGame? ==>
                   && u.sessionId == registry[pid].session.value
                   && u.currentCity == s.current
                   && u.players == Names(s.players)
                   && (u.yourTurn <==> s.players[s.turn].id == pid)))
    {
    }

    /** Under the registry invariant the defensive "session not found" shape never occurs. */
    lemma NoOrphanSessions(pid: nat)
      requires Valid()
      ensures GetGameUpdate(pid) != SessionNotFound
    {
      UpdateShapes(pid);
    }

    /**
     * `submit_move`: only the player at the session's turn index may write
     * the move slot, and it receives the normalised move; every other call
     * changes nothing. The write is invisible to status polls.
     */
    method SubmitMove(pid: nat, move: string) returns (reply: MoveReply)
      requires SessionsValid()
      modifies sessions.Values
      ensures SessionsValid()
      ensures pid !in registry ==> reply == UnknownPlayer
      ensures pid in registry && registry[pid].session.None? ==> reply == NoSession
      ensures pid in registry && registry[pid].session.Some? && SessionOf(pid).None? ==> reply == NoSuchSession
      ensures SessionOf(pid).Some? ==> var s := SessionOf(pid).value;
        && (reply == NotYourTurn <==> s.players[s.turn].id != pid)
        && (reply != NotYourTurn ==> reply == MoveTaken(move) && s.currentMove == Some(Normalize(move)))
      ensures forall s :: s in sessions.Values && s.currentMove != old(s.currentMove) ==>
        reply.MoveTaken? && SessionOf(pid) == Some(s)
      ensures forall s :: s in sessions.Values ==> s.State() == old(s.State()) && s.gameOver == old(s.gameOver)
      ensures forall q :: GetGameUpdate(q) == old(GetGameUpdate(q))
    {
      if pid !in registry {
        return UnknownPlayer;
      }
      var sid := registry[pid].session;
      if sid.None? {
        return NoSession;
      }
      if sid.value !in sessions {
        return NoSuchSession;
      }
      var s := sessions[sid.value];
      if s.players[s.turn].id != pid {
        return NotYourTurn;
      }
      s.currentMove := Some(Normalize(move));
      reply := MoveTaken(move);
    }
  }
}
