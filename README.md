# Cities game server, modelled in Dafny

`game_server_full.py` runs a multiplayer game of cities. Players register
and wait in a lobby. As soon as at least three are waiting, up to five of
them are moved, in queue order, into a new session. Each session runs a
turn loop. The active player must name a city from a fixed list of fifteen
Russian cities. The city must not have been named before in the session. It
must start with the last significant letter of the previous city, where a
final soft sign "ь" is skipped. A player who times out or names a bad city is
eliminated. The last player left wins. Clients poll a status view and submit
moves into a one-slot mailbox of the session.

The model has five modules:

- `Wrappers`: the `Option` type.
- `Cities` (`cities.dfy`):
  - `strip()` with Python's whitespace set;
  - `lower()` for the Latin and Cyrillic capitals;
  - the normal form `strip().lower()`;
  - the city list `CityList`;
  - `get_last_significant_letter`, as `LastSignificantLetter`.
- `Turns` (`turns.dfy`): one session as a value (`Game`).
  - `Validate`: the validation chain of the turn loop.
  - `Eliminate` and `Accept`: the two effects of a turn.
  - `Next`: one turn.
  - `Play`: the whole loop, driven by a sequence of wait outcomes.
- `Session` (`session.dfy`): the class `GameSession`. Its fields are the
  ones `run` updates in place. Its methods are proved to move those fields
  exactly as `Turns.Next` and `Turns.Play` move a `Game`.
- `Server` (`server.dfy`): the class `GameServer`. It holds the player
  registry, the lobby, the session table and the id counters, as the
  module-level globals of the source do. Its methods model
  `register_player`, `attempt_create_session`, `submit_move` and
  `get_game_update`.

The 30-second wait in `run` is an input. Each turn receives `Some(text)`, the
content of the move slot when the wait ended, or `None` when nobody
submitted. `Run(moves)` feeds `moves[k]` to the k-th turn. Every turn after
the last entry times out, so the loop always ends.

In the game of players A, B and C, A names "москва" and B repeats it. B is
eliminated and the roster becomes [A, C]. The code leaves the turn index at
1, because it is still inside the roster. So C moves next, not A: removing
the active player already hands the turn to the next one.
`Turns.ThreePlayerGame` proves that if C then times out, A wins and the
eliminations are ["B", "C"].

## Model

| member | source | states |
|---|---|---|
| Cities.TrimLeftSpec | game_server_full.py:83 | the left half of `strip()` removes a prefix made only of whitespace and stops at the first other character |
| Cities.TrimRightSpec | game_server_full.py:83 | the right half of `strip()` removes a suffix made only of whitespace and stops at the last other character |
| Cities.StripSpec | game_server_full.py:83 | `strip()` leaves no whitespace at either end, never lengthens the text, and leaves trimmed text unchanged |
| Cities.LowerChar | game_server_full.py:83 | a Latin capital becomes a Latin small letter and a Cyrillic capital a Cyrillic small letter; every other character is left as it is; no capital survives, and whitespace stays whitespace |
| Cities.LowerSpec | game_server_full.py:83 | `lower()` keeps the length and lower-cases each character in place |
| Cities.NormalizeSpec | game_server_full.py:83 | `strip().lower()` yields trimmed lower-case text no longer than its input, and is the identity on text already in that form |
| Cities.NormalizeIdempotent | game_server_full.py:214 | normalising twice, as `submit_move` and then `run` do, is normalising once |
| Cities.LastSignificantLetterSpec | game_server_full.py:29-39 | there is no letter exactly when the normalised word is empty; a word of two or more letters ending in the soft sign gives its second-to-last letter; any other non-empty word gives its last letter; the soft sign itself comes back only when the word offers nothing else |
| Cities.LastSignificantLetterOfNormalized | game_server_full.py:34 | the chaining letter of a word and of its normal form agree |
| Cities.MoscowNormal | game_server_full.py:23-27 | "москва" is a listed city, already in normal form, and chains with "а" |
| Cities.CityNonEmpty | game_server_full.py:23-27 | every listed city is non-empty, so the first-letter check never indexes an empty move |
| Turns.Start | game_server_full.py:45-54 | a new session keeps the loop invariant, with the given roster, no cities and no eliminations |
| Turns.Validate | game_server_full.py:83-117 | an accepted move is a listed city not yet used |
| Turns.ValidateCases | game_server_full.py:72-117 | the checks run in order: timeout iff no move; then unknown city iff the normal form is not listed; then repeat iff it is listed and used; then wrong letter iff listed, unused and not chaining; acceptance iff it passes all three |
| Turns.RingNext | game_server_full.py:123 | the next index in a ring of n places equals `(i + 1) % n` |
| Turns.Eliminate | game_server_full.py:72-81 | the active name is appended to the eliminations; the roster loses exactly that player, keeping the others in order; the index stays unless it ran off the end, then wraps to 0; the player after the eliminated one in ring order becomes active; cities are unchanged |
| Turns.Accept | game_server_full.py:119-123 | the city is added to the used set and becomes the chaining source; the turn passes to the next player in ring order; roster and eliminations are unchanged |
| Turns.Next | game_server_full.py:63-123 | one turn keeps the invariant (index in range, used cities listed, current city used) and leaves at least one player |
| Turns.ExactlyOneOutcome | game_server_full.py:72-123 | a turn accepts (same roster, one more city) exactly when validation accepts, and eliminates (one player fewer, one more elimination, same cities) exactly when it rejects |
| Turns.NextShrinksBudget | game_server_full.py:63 | every turn removes a player or uses up a listed city, so the loop terminates |
| Turns.Play | game_server_full.py:63-134 | the loop ends with the invariant and at most one player, and with exactly one when the session started with any |
| Turns.EliminateKeepsNames | game_server_full.py:75-76 | an elimination moves exactly one name from the roster to the eliminations |
| Turns.NextKeepsNames | game_server_full.py:72-123 | one turn preserves the multiset of roster names plus eliminated names |
| Turns.PlayKeepsNames | game_server_full.py:63-134 | a whole game preserves that multiset, so players remaining plus players eliminated is constant |
| Turns.PlayBounds | game_server_full.py:63-134 | used cities only grow and stay listed; the number of turns equals cities added plus players removed, and is at most the length of the city list plus the roster size |
| Turns.PlayHasWinner | game_server_full.py:126-134 | a game started with players ends with a winner, and the eliminated list has grown by all the other players |
| Turns.FirstMoveAccepted | game_server_full.py:119-123 | in a new A, B, C session, "москва" is accepted and B is next |
| Turns.RepeatEliminates | game_server_full.py:96-104 | B repeating "москва" eliminates B, and the index stays 1, which is now C |
| Turns.TimeoutEliminates | game_server_full.py:72-81 | C timing out on [A, C] eliminates C, and the index wraps to 0 |
| Turns.ThreePlayerGame | game_server_full.py:63-134 | the whole A, B, C game ends with A alone, winner A, and eliminations ["B", "C"] |
| Session.GameSession.constructor | game_server_full.py:45-54 | the fields are those of `Turns.Start`, with an empty move slot and the game not over |
| Session.GameSession.RemoveActive | game_server_full.py:75-81 | the fields move exactly as `Turns.Eliminate` moves a game |
| Session.GameSession.Check | game_server_full.py:72-117 | the imperative check chain returns exactly `Turns.Validate` of the current fields |
| Session.GameSession.Step | game_server_full.py:63-123 | one loop iteration moves the fields exactly as `Turns.Next` does, reports the validation outcome, and keeps the invariant |
| Session.GameSession.Run | game_server_full.py:63-134 | the loop leaves the fields as `Turns.Play` computes, with at most one player, and sets the game-over flag |
| Server.TakeCount | game_server_full.py:225-226 | matchmaking takes nobody below three waiting players; otherwise it takes all of them, but at most five |
| Server.GameServer.constructor | game_server_full.py:9-20 | counters start at 1; registry, lobby and session table start empty; the server invariant holds |
| Server.GameServer.PopLobby | game_server_full.py:227-228 | the repeated `pop(0)` returns the first n ids in order and leaves the rest |
| Server.GameServer.AssignSession | game_server_full.py:233-234 | every taken player gets the session id; every other registry entry is unchanged |
| Server.GameServer.OpenSession | game_server_full.py:229-236 | the next session id is issued once; a fresh session with the taken roster is recorded under it; the taken players point at it; the invariant is kept |
| Server.GameServer.AttemptCreateSession | game_server_full.py:221-238 | with at least three waiting, the first min(5, n) leave the lobby in order and form a new session; otherwise nothing changes |
| Server.GameServer.Enqueue | game_server_full.py:152-157 | a fresh id, a session-less registry entry, and a place at the end of the lobby, keeping the invariant |
| Server.GameServer.RegisterPlayer | game_server_full.py:146-160 | the returned id is new and registered; the lobby and sessions are what matchmaking makes of the queue with the new id appended; players not taken keep their registry entries, and the new one stays session-less unless taken; with no session formed the session counter and table are unchanged, otherwise exactly one fresh session is added; a lobby below three stays below three |
| Server.GameServer.SessionOf | game_server_full.py:171-176 | a player's session is found exactly when the player is registered with a session id that names a recorded session, and it is the session stored under that id |
| Server.GameServer.UpdateShapes | game_server_full.py:162-194 | the status view: not-registered iff unknown id; waiting iff no session; not-found iff a dangling session id; otherwise game-over (winner, eliminations) iff finished, else in-game (id, current city, whose turn, roster names) |
| Server.GameServer.NoOrphanSessions | game_server_full.py:175-177 | under the server invariant the "session not found" shape never occurs |
| Server.GameServer.SubmitMove | game_server_full.py:196-216 | the reply follows the lookup order; only the player at the turn index writes the slot, and it receives the normalised move; no session's game state changes; every status view stays the same |

## Left out

- Threads, `lobby_lock` and the per-session condition variable are not modelled. The 30-second `wait` becomes the `Option<string>` given to each turn. Clearing the slot at the start of a turn and the `notify_all` calls are not modelled. `Step` sets the slot to the value the wait returned.
- Interleavings of `submit_move` with the turn loop are not modelled. Each operation is atomic on the state it touches.
- Starting the session thread in `attempt_create_session` is not modelled. `GameSession.Run` is proved on its own and is not called by the server.
- Logging through `print`, the XML-RPC server class and the `__main__` block are not modelled.
- Reply texts are tags: `Update` for `get_game_update`, `MoveReply` for `submit_move`. The Russian message strings are dropped. `submit_move` echoes the raw move, kept as `MoveTaken(move)`.
- The roster entries in the source are the registry's own dictionaries, aliased with the registry. The model copies each player's id and name into a `Member`. A session reads only those two keys, and they never change after registration.
- Cities.LowerChar: covers A-Z and the Cyrillic capitals U+0400..U+042F only. Python's `lower()` also maps capitals of other scripts. No such capital lower-cases to a character of a listed city, so every validation outcome is the same; only the text left in the move slot can differ.
- The `if len(self.players) == 0: break` after an elimination cannot fire, because the loop runs only with two or more players. The model has no such branch, and `Turns.Next` proves at least one player remains.
- The integer turn index of the source is unbounded, like Dafny's `nat`. The `% len(players)` step is written as `RingNext`, which is proved equal to it.
- Session.GameSession.Run: `Run(moves)` treats every turn past the end of `moves` as a timeout. Real clients may keep playing, but every run of the loop is some such sequence.
- Cities.MoscowNormal: only "москва" is proved to be already in normal form. The other fourteen literals are not, because evaluating all of them in one proof is too costly. The chaining rule is independent of this (`Cities.LastSignificantLetterOfNormalized`).
- Server.GameServer.SubmitMove and Server.GameServer.GetGameUpdate require only that every session keeps its own invariant, not the full server invariant. This keeps the source's defensive "session not found" branch reachable. `NoOrphanSessions` shows that branch is dead under the full invariant.
